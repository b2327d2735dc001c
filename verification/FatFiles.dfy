/** What the file operations of the volume mean, stated on disk images. */
module FatFiles {
  import opened Bytes
  import opened BlockDevice
  import opened Arithmetic
  import opened FatLayout
  import opened FatChain
  import opened FatContent
  import opened FatAlloc
  import opened Directory

  const MAX_NAME := 12

  function FirstOr0(cs: seq<u32>): u32 {
    if cs == [] then 0 else cs[0]
  }

  function Truncate(s: seq<u8>, n: nat): seq<u8> {
    if |s| <= n then s else s[..n]
  }

  /** The bytes of the chain at `start`; a cluster that cannot be located panics. */
  ghost function ChainContent(b: BootSector, d: Disk, start: u32): Result<seq<u8>> {
    match ChainOf(b, d, start)
    case Ok(cs) => if forall c :: c in cs ==> b.Fits(c) then Ok(Content(b, d, cs)) else Panic
    case Err(e) => Err(e)
    case Panic => Panic
  }

  /** What `read_file` returns. */
  ghost function FileBytes(b: BootSector, d: Disk, e: DirEntry): Result<seq<u8>> {
    match ChainContent(b, d, e.firstCluster)
    case Ok(s) => Ok(Truncate(s, e.fileSize))
    case Err(x) => Err(x)
    case Panic => Panic
  }

  /** What `list_directory` returns. */
  ghost function DirListing(b: BootSector, d: Disk, cluster: u32): Result<seq<DirEntry>> {
    match ChainContent(b, d, cluster)
    case Ok(s) => Ok(Listing(s))
    case Err(x) => Err(x)
    case Panic => Panic
  }

  /**
   `rec` was stored in record `j` of the directory `cs`, the first unused one, by changing only the
   data sector `lba`.
   */
  ghost predicate RecordStored(b: BootSector, d: Disk, d': Disk, cs: seq<u32>, rec: seq<u8>, j: nat, lba: int)
    requires |rec| == RECORD_SIZE
  {
    && FirstReplaced(Content(b, d, cs), Content(b, d', cs), j, rec)
    && Occupies(b, cs, lba) && lba >= b.DataStart() && OnlyAt(d, d', lba)
  }

  /** What `write_dir_entry` does to a directory made of the clusters `cs`. */
  ghost predicate RecordAdded(b: BootSector, d: Disk, d': Disk, cs: seq<u32>, rec: seq<u8>, r: Result<()>)
    requires |rec| == RECORD_SIZE
  {
    if r.Ok? then exists j, lba :: RecordStored(b, d, d', cs, rec, j, lba)
    else r == Err(NoFreeDirEntries) && NoneUnused(Content(b, d, cs)) && d' == d
  }

  /** What `write_dir_entry` does, for any directory cluster: an error or a panic writes nothing. */
  ghost predicate DirEntryWritten(b: BootSector, d: Disk, d': Disk, dir: u32, rec: seq<u8>, r: Result<()>)
    requires |rec| == RECORD_SIZE
  {
    match ChainOf(b, d, dir)
    case Err(e) => r == Err(e) && d' == d
    case Panic => r.Panic? && d' == d
    case Ok(cs) =>
      if r.Panic? then d' == d && exists c :: c in cs && !b.Fits(c)
      else RecordAdded(b, d, d', cs, rec, r)
  }

  /**
   One call of `create_file` on `dir`: the disk before it, once the data is stored, and after it,
   the clusters it took, the directory record it made and what it returned.
   */
  datatype Creation = Creation(
    dir: u32, name: seq<u8>, data: seq<u8>,
    before: Disk, stored: Disk, after: Disk,
    clusters: seq<u32>, record: seq<u8>, result: Result<()>)

  /** What `create_file` does. */
  ghost predicate Created(b: BootSector, x: Creation)
    requires |x.record| == RECORD_SIZE
  {
    if |x.name| > MAX_NAME then
      x.result == Err(NameTooLong) && x.clusters == [] && x.after == x.stored == x.before
    else
      && LowestFree(b, x.before, x.clusters)
      && x.stored == AfterStoring(b, x.before, x.clusters, x.data)
      && if Needed(b, x.data) > |FreeSet(b, x.before)| then
           x.result == Err(NoFreeClusters) && x.after == x.stored && |x.clusters| == |FreeSet(b, x.before)|
         else
           |x.clusters| == Needed(b, x.data)
           && DirEntryWritten(b, x.stored, x.after, x.dir, x.record, x.result)
  }

  /** The directory record is the one `create_dir_entry` makes for the new file. */
  ghost predicate RecordMade(x: Creation) {
    x.record == NewRecord(x.name, FirstOr0(x.clusters), |x.data| % U32_LIMIT)
  }

  /** How many clusters `data` takes. */
  function Needed(b: BootSector, data: seq<u8>): nat {
    if b.sectorsPerCluster == 0 then 0 else ChunkCount(|data|, ClusterSize(b))
  }

  // ---------- Storing a directory record ----------

  /** `rec` was stored in record `j`, the first unused one, of `n` consecutive sectors. */
  ghost predicate StoredInRun(d: Disk, d': Disk, first: int, n: nat, rec: seq<u8>, j: nat, lba: int)
    requires |rec| == RECORD_SIZE
  {
    && FirstReplaced(SectorBytes(d, first, n), SectorBytes(d', first, n), j, rec)
    && first <= lba < first + n && OnlyAt(d, d', lba)
  }

  /** Replacing the first unused record of the first sector that has one. */
  lemma StoreInRun(d: Disk, d': Disk, first: int, n: nat, i: nat, slot: nat, rec: seq<u8>)
    requires |rec| == RECORD_SIZE && i < n && OnlyAt(d, d', first + i)
    requires NoneUnused(SectorBytes(d, first, i))
    requires FirstReplaced(At(d, first + i), At(d', first + i), slot, rec)
    ensures exists j, lba :: StoredInRun(d, d', first, n, rec, j, lba)
  {
    var j := ReplacedInRun(d, d', first, n, i, slot, rec);
    assert StoredInRun(d, d', first, n, rec, j, first + i);
  }

  lemma ReplacedInRun(d: Disk, d': Disk, first: int, n: nat, i: nat, slot: nat, rec: seq<u8>) returns (j: nat)
    requires |rec| == RECORD_SIZE && i < n && OnlyAt(d, d', first + i)
    requires NoneUnused(SectorBytes(d, first, i))
    requires FirstReplaced(At(d, first + i), At(d', first + i), slot, rec)
    ensures FirstReplaced(SectorBytes(d, first, n), SectorBytes(d', first, n), j, rec)
  {
    var xs, zs := SectorBytes(d, first, i), SectorBytes(d, first + i + 1, n - i - 1);
    j := |xs| / RECORD_SIZE + slot;
    SplitChangedSector(d, d', first, n, i);
    WholeRecords(0, i);
    ReplacedWithin(xs, At(d, first + i), At(d', first + i), zs, slot, rec);
  }

  lemma SplitChangedSector(d: Disk, d': Disk, first: int, n: nat, i: nat)
    requires i < n && OnlyAt(d, d', first + i)
    ensures var xs, zs := SectorBytes(d, first, i), SectorBytes(d, first + i + 1, n - i - 1);
            SectorBytes(d, first, n) == xs + At(d, first + i) + zs
            && SectorBytes(d', first, n) == xs + At(d', first + i) + zs
  {
    SplitAtSector(d, first, n, i);
    SplitAtSector(d', first, n, i);
    SectorBytesFrame(d, d', first, i);
    SectorBytesFrame(d, d', first + i + 1, n - i - 1);
  }

  lemma SplitAtSector(d: Disk, first: int, n: nat, i: nat)
    requires i < n
    ensures SectorBytes(d, first, n)
         == SectorBytes(d, first, i) + At(d, first + i) + SectorBytes(d, first + i + 1, n - i - 1)
  {
    SectorBytesSplit(d, first, n, i + 1);
  }

  /** A cluster that can be located lies behind the FAT copies. */
  lemma BehindFats(b: BootSector, c: u32)
    requires c >= 2
    ensures b.ClusterToSector(c) >= b.DataStart()
  {
    Distribute(c - 2, b.sectorsPerCluster);
  }

  /** Storing in the first cluster that has an unused record stores in the whole directory. */
  lemma StoreInChain(b: BootSector, d: Disk, d': Disk, cs: seq<u32>, i: nat, rec: seq<u8>, j: nat, lba: int)
    requires |rec| == RECORD_SIZE && i < |cs| && cs[i] >= 2
    requires cs[i] !in cs[..i] && cs[i] !in cs[i + 1..]
    requires NoneUnused(Content(b, d, cs[..i]))
    requires StoredInRun(d, d', b.ClusterToSector(cs[i]), b.sectorsPerCluster, rec, j, lba)
    ensures RecordAdded(b, d, d', cs, rec, Ok(()))
  {
    BehindFats(b, cs[i]);
    var k := ReplacedInChain(b, d, d', cs, i, rec, j, lba);
    InCluster(b, cs, i, lba);
    assert RecordStored(b, d, d', cs, rec, k, lba);
  }

  lemma ReplacedInChain(b: BootSector, d: Disk, d': Disk, cs: seq<u32>, i: nat, rec: seq<u8>, j: nat, lba: int)
    returns (k: nat)
    requires |rec| == RECORD_SIZE && i < |cs|
    requires cs[i] !in cs[..i] && cs[i] !in cs[i + 1..]
    requires NoneUnused(Content(b, d, cs[..i]))
    requires StoredInRun(d, d', b.ClusterToSector(cs[i]), b.sectorsPerCluster, rec, j, lba)
    ensures FirstReplaced(Content(b, d, cs), Content(b, d', cs), k, rec)
  {
    var at, xs, zs := b.ClusterToSector(cs[i]), Content(b, d, cs[..i]), Content(b, d, cs[i + 1..]);
    k := |xs| / RECORD_SIZE + j;
    SplitChangedCluster(b, d, d', cs, i, lba);
    ContentRecords(b, d, cs[..i]);
    ReplacedWithin(xs, SectorBytes(d, at, b.sectorsPerCluster), SectorBytes(d', at, b.sectorsPerCluster), zs, j, rec);
  }

  lemma InCluster(b: BootSector, cs: seq<u32>, i: nat, lba: int)
    requires i < |cs| && b.ClusterToSector(cs[i]) <= lba < b.ClusterToSector(cs[i]) + b.sectorsPerCluster
    ensures Occupies(b, cs, lba)
  {
    assert cs[i] in cs;
  }

  lemma SplitChangedCluster(b: BootSector, d: Disk, d': Disk, cs: seq<u32>, i: nat, lba: int)
    requires i < |cs|
    requires cs[i] !in cs[..i] && cs[i] !in cs[i + 1..]
    requires OnlyAt(d, d', lba)
    requires b.ClusterToSector(cs[i]) <= lba < b.ClusterToSector(cs[i]) + b.sectorsPerCluster
    ensures var at, xs, zs := b.ClusterToSector(cs[i]), Content(b, d, cs[..i]), Content(b, d, cs[i + 1..]);
            && Content(b, d, cs) == xs + SectorBytes(d, at, b.sectorsPerCluster) + zs
            && Content(b, d', cs) == xs + SectorBytes(d', at, b.sectorsPerCluster) + zs
  {
    SplitAtCluster(b, d, cs, i);
    SplitAtCluster(b, d', cs, i);
    OtherClusters(b, d, d', cs[..i], cs[i], lba);
    OtherClusters(b, d, d', cs[i + 1..], cs[i], lba);
  }

  /** A write inside cluster `c` does not show in the content of other clusters. */
  lemma OtherClusters(b: BootSector, d: Disk, d': Disk, cs: seq<u32>, c: u32, lba: int)
    requires c !in cs && OnlyAt(d, d', lba)
    requires b.ClusterToSector(c) <= lba < b.ClusterToSector(c) + b.sectorsPerCluster
    ensures Content(b, d', cs) == Content(b, d, cs)
  {
    forall x | Occupies(b, cs, x) ensures At(d', x) == At(d, x) {
      var k :| k in cs && b.ClusterToSector(k) <= x < b.ClusterToSector(k) + b.sectorsPerCluster;
      if x == lba {
        ClustersDisjoint(b, k, x - b.ClusterToSector(k), c, x - b.ClusterToSector(c));
        assert false;
      }
    }
    ContentFrame(b, d, d', cs);
  }

  lemma SplitAtCluster(b: BootSector, d: Disk, cs: seq<u32>, i: nat)
    requires i < |cs|
    ensures Content(b, d, cs)
         == Content(b, d, cs[..i])
            + SectorBytes(d, b.ClusterToSector(cs[i]), b.sectorsPerCluster)
            + Content(b, d, cs[i + 1..])
  {
    assert cs == cs[..i + 1] + cs[i + 1..];
    ContentAppend(b, d, cs[..i + 1], cs[i + 1..]);
    ContentNext(b, d, cs, i);
  }

  // The ways in which `write_dir_entry` ends.

  lemma WriteStored(b: BootSector, d: Disk, d': Disk, dir: u32, cs: seq<u32>, i: nat, rec: seq<u8>)
    requires |rec| == RECORD_SIZE && ChainOf(b, d, dir) == Ok(cs) && i < |cs| && cs[i] >= 2
    requires NoneUnused(Content(b, d, cs[..i]))
    requires exists j, lba :: StoredInRun(d, d', b.ClusterToSector(cs[i]), b.sectorsPerCluster, rec, j, lba)
    ensures DirEntryWritten(b, d, d', dir, rec, Ok(()))
  {
    var j, lba :| StoredInRun(d, d', b.ClusterToSector(cs[i]), b.sectorsPerCluster, rec, j, lba);
    ChainSplit(b, d, dir, cs, i);
    StoreInChain(b, d, d', cs, i, rec, j, lba);
  }

  lemma NextClusterFull(b: BootSector, d: Disk, cs: seq<u32>, i: nat)
    requires i < |cs| && NoneUnused(Content(b, d, cs[..i]))
    requires NoneUnused(SectorBytes(d, b.ClusterToSector(cs[i]), b.sectorsPerCluster))
    ensures NoneUnused(Content(b, d, cs[..i + 1]))
  {
    ContentRecords(b, d, cs[..i]);
    NoneUnusedAppend(Content(b, d, cs[..i]), SectorBytes(d, b.ClusterToSector(cs[i]), b.sectorsPerCluster));
    ContentNext(b, d, cs, i);
  }

  lemma NextSectorFull(d: Disk, first: int, i: nat, s: Sector)
    requires NoneUnused(SectorBytes(d, first, i)) && s == At(d, first + i)
    requires forall k: nat :: k < 16 ==> !Unused(Lead(s, k))
    ensures NoneUnused(SectorBytes(d, first, i + 1))
  {
    NoneUnusedAppend(SectorBytes(d, first, i), s);
  }

  lemma WriteFull(b: BootSector, d: Disk, dir: u32, cs: seq<u32>, rec: seq<u8>)
    requires |rec| == RECORD_SIZE && ChainOf(b, d, dir) == Ok(cs) && NoneUnused(Content(b, d, cs))
    ensures DirEntryWritten(b, d, d, dir, rec, Err(NoFreeDirEntries))
  {
  }

  lemma WritePanics(b: BootSector, d: Disk, dir: u32, cs: seq<u32>, i: nat, rec: seq<u8>)
    requires |rec| == RECORD_SIZE && ChainOf(b, d, dir) == Ok(cs) && i < |cs| && !b.Fits(cs[i])
    ensures DirEntryWritten(b, d, d, dir, rec, Panic)
  {
    assert cs[i] in cs;
  }
}
