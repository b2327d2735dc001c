/** The driver used end to end: creating a file, listing its directory and reading every entry. */
module FatSession {
  import opened Common
  import opened Bytes
  import opened BlockDevice
  import opened FatLayout
  import opened FatChain
  import opened FatContent
  import opened FatAlloc
  import opened Directory
  import opened FatFiles
  import opened FatTheorems
  import opened FatRoundTrip
  import opened Fat32

  /** What each of the entries reads as. */
  ghost function Reads(b: BootSector, d: Disk, entries: seq<DirEntry>): seq<Result<seq<u8>>> {
    seq(|entries|, i requires 0 <= i < |entries| => FileBytes(b, d, entries[i]))
  }

  method ReadNth(v: Volume, entries: seq<DirEntry>, i: nat) returns (bytes: Result<seq<u8>>)
    requires i < |entries|
    ensures bytes == Reads(v.boot, v.device.sectors, entries)[i]
  {
    bytes := v.ReadFile(entries[i]);
  }

  method ReadEach(v: Volume, entries: seq<DirEntry>) returns (contents: seq<Result<seq<u8>>>)
    ensures contents == Reads(v.boot, v.device.sectors, entries)
  {
    ghost var all := Reads(v.boot, v.device.sectors, entries);
    contents := [];
    for i := 0 to |entries|
      invariant contents == all[..i]
    {
      var bytes := ReadNth(v, entries, i);
      contents := contents + [bytes];
      TakeNext(all, i);
    }
    TakeAll(all);
  }

  /** Everything the caller can check before creating a file that will be listed and read back whole. */
  ghost predicate Ready(b: BootSector, d: Disk, dir: u32, name: seq<u8>, data: seq<u8>) {
    && b.Geometry() && SoundChain(b, d, dir) && HasRoom(b, d, dir)
    && |name| <= MAX_NAME && (name == [] || !Unused(name[0]))
    && data != [] && Needed(b, data) <= MAX_ITERATIONS && Needed(b, data) <= |FreeSet(b, d)|
    && (b.sectorsPerCluster == 1 || |data| <= SECTOR_SIZE)
  }

  /** Create, list and read every entry: one of them is the data. */
  method CreateAndReadAll(v: Volume, dir: u32, name: seq<u8>, data: seq<u8>) returns (contents: seq<Result<seq<u8>>>)
    requires Ready(v.boot, v.device.sectors, dir, name, data)
    modifies v.device
    ensures Ok(data) in contents
  {
    var r, x := v.CreateFile(dir, name, data);
    CreatedReadsBack(v.boot, x);
    var listing := v.ListDirectory(dir);
    contents := ReadEach(v, listing.value);
    ListedIsRead(v.boot, v.device.sectors, listing.value, ParseRecord(x.record));
  }

  lemma ListedIsRead(b: BootSector, d: Disk, entries: seq<DirEntry>, e: DirEntry)
    requires e in entries
    ensures FileBytes(b, d, e) in Reads(b, d, entries)
  {
    var i :| 0 <= i < |entries| && entries[i] == e;
    assert Reads(b, d, entries)[i] == FileBytes(b, d, e);
  }

  lemma CreatedReadsBack(b: BootSector, x: Creation)
    requires Ready(b, x.before, x.dir, x.name, x.data) && RecordMade(x) && Created(b, x)
    ensures DirListing(b, x.after, x.dir).Ok?
    ensures var e := ParseRecord(x.record);
            e in DirListing(b, x.after, x.dir).value && FileBytes(b, x.after, e) == Ok(x.data)
  {
    CreateSucceedsIff(b, x);
    CreateThenRead(b, x);
    RoundTripExact(b, x);
  }

  // ---------- Files that do not come back ----------

  /** Everything the caller can check before creating the first file of a directory. */
  ghost predicate Fresh(b: BootSector, d: Disk, dir: u32, name: seq<u8>, data: seq<u8>) {
    && b.Geometry() && SoundChain(b, d, dir) && HasRoom(b, d, dir) && DirListing(b, d, dir) == Ok([])
    && |name| <= MAX_NAME && (name == [] || !Unused(name[0])) && Needed(b, data) <= |FreeSet(b, d)|
  }

  /** Create, list and read every entry: the new file is the only one. */
  method CreateFirst(v: Volume, dir: u32, name: seq<u8>, data: seq<u8>)
    returns (r: Result<()>, contents: seq<Result<seq<u8>>>, ghost x: Creation)
    requires Fresh(v.boot, v.device.sectors, dir, name, data)
    modifies v.device
    ensures RecordMade(x) && |x.record| == RECORD_SIZE && Created(v.boot, x) && x.result.Ok? && r.Ok?
    ensures x.before == old(v.device.sectors) && x.dir == dir && x.name == name && x.data == data
    ensures |contents| == 1 && contents[0] == FileBytes(v.boot, x.after, ParseRecord(x.record))
  {
    r, x := v.CreateFile(dir, name, data);
    FirstListed(v.boot, x);
    var listing := v.ListDirectory(dir);
    contents := ReadEach(v, listing.value);
    assert contents[0] == FileBytes(v.boot, v.device.sectors, listing.value[0]);
  }

  lemma FirstListed(b: BootSector, x: Creation)
    requires Fresh(b, x.before, x.dir, x.name, x.data) && RecordMade(x) && |x.record| == RECORD_SIZE && Created(b, x)
    ensures x.result.Ok? && DirListing(b, x.after, x.dir) == Ok([ParseRecord(x.record)])
  {
    CreateSucceedsIff(b, x);
    RecordMadeParses(x);
    CreateListing(b, x);
    OnlyEntry(DirListing(b, x.after, x.dir).value, x.record);
  }

  lemma OnlyEntry(new': seq<DirEntry>, rec: seq<u8>)
    requires |rec| == RECORD_SIZE && Inserted([], new', rec, true)
    ensures new' == [ParseRecord(rec)]
  {
  }

  lemma FirstTaken(b: BootSector, x: Creation, c: u32)
    requires b.sectorsPerCluster > 0 && x.data != [] && |x.clusters| == Needed(b, x.data)
    requires LowestFree(b, x.before, x.clusters) && FirstFree(b, x.before, c)
    ensures |x.clusters| > 0 && x.clusters[0] == c
  {
    ChunkCountBounds(|x.data|, ClusterSize(b));
    var first := x.clusters[0];
    if c < first {
      assert c in x.clusters;
    }
  }

  /** A file of more than one sector, and a byte in the second sector of the lowest free cluster that differs. */
  ghost predicate Lossy(b: BootSector, d: Disk, dir: u32, name: seq<u8>, data: seq<u8>, c: u32) {
    && Fresh(b, d, dir, name, data) && b.sectorsPerCluster > 1 && |data| > SECTOR_SIZE
    && FirstFree(b, d, c) && At(d, b.ClusterToSector(c) + 1)[0] != data[SECTOR_SIZE]
  }

  /** `create_file` succeeds, and the data is not there. */
  method CreateAndLose(v: Volume, dir: u32, name: seq<u8>, data: seq<u8>, ghost c: u32)
    returns (r: Result<()>, contents: seq<Result<seq<u8>>>)
    requires Lossy(v.boot, v.device.sectors, dir, name, data, c)
    modifies v.device
    ensures r.Ok? && |contents| == 1 && contents[0] != Ok(data)
  {
    ghost var x;
    r, contents, x := CreateFirst(v, dir, name, data);
    CreatedIsLost(v.boot, x, c);
  }

  lemma CreatedIsLost(b: BootSector, x: Creation, c: u32)
    requires Lossy(b, x.before, x.dir, x.name, x.data, c)
    requires RecordMade(x) && |x.record| == RECORD_SIZE && Created(b, x) && x.result.Ok?
    ensures FileBytes(b, x.after, ParseRecord(x.record)) != Ok(x.data)
  {
    FirstTaken(b, x, c);
    NotHeld(b, x, b.ClusterToSector(c) + 1);
    RoundTripIff(b, x);
  }

  /** A file of more than 10000 clusters, and room for it. */
  ghost predicate TooLong(b: BootSector, d: Disk, dir: u32, name: seq<u8>, data: seq<u8>) {
    Fresh(b, d, dir, name, data) && Needed(b, data) > MAX_ITERATIONS
  }

  /** `create_file` succeeds, and the file cannot be read. */
  method CreateTooLong(v: Volume, dir: u32, name: seq<u8>, data: seq<u8>)
    returns (r: Result<()>, contents: seq<Result<seq<u8>>>)
    requires TooLong(v.boot, v.device.sectors, dir, name, data)
    modifies v.device
    ensures r.Ok? && |contents| == 1 && contents[0] == Err(ChainTooLong)
  {
    ghost var x;
    r, contents, x := CreateFirst(v, dir, name, data);
    RecordMadeParses(x);
    LongFileUnreadable(v.boot, x, ParseRecord(x.record));
  }

  // ---------- Freshly formatted volumes ----------

  /** A freshly formatted small volume is ready for a one-sector file. */
  lemma FreshVolumeIsReady(name: seq<u8>, data: seq<u8>) returns (b: BootSector, d: Disk)
    requires |name| <= MAX_NAME && (name == [] || !Unused(name[0])) && 0 < |data| <= SECTOR_SIZE
    ensures Ready(b, d, b.rootCluster, name, data) && b.numFats == 2 && b.Mirrored(d)
  {
    b, d := FreshVolume(1, 1);
    FreshRoot(b, d);
    FreshDirectoryEmpty(b, d);
    FreshSpace(b, d);
    OneCluster(b, data);
  }

  /** With two sectors per cluster it loses every file of two sectors whose second one does not start with 0. */
  lemma FreshVolumeIsLossy(name: seq<u8>, data: seq<u8>) returns (b: BootSector, d: Disk, c: u32)
    requires |name| <= MAX_NAME && (name == [] || !Unused(name[0]))
    requires SECTOR_SIZE < |data| <= 2 * SECTOR_SIZE && data[SECTOR_SIZE] != 0
    ensures Lossy(b, d, b.rootCluster, name, data, c) && b.numFats == 2 && b.Mirrored(d)
  {
    b, d := FreshVolume(2, 1);
    c := 3;
    FreshRoot(b, d);
    FreshDirectoryEmpty(b, d);
    FreshSpace(b, d);
    OneCluster(b, data);
    InRangeFits(b, c);
    assert At(d, b.ClusterToSector(c) + 1)[0] == 0;
  }

  /** With 79 or more sectors per FAT there is room for files of more than 10000 clusters. */
  lemma FreshVolumeIsTooLong(n: nat, name: seq<u8>, data: seq<u8>) returns (b: BootSector, d: Disk)
    requires 79 <= n <= MAX_FAT && |name| <= MAX_NAME && (name == [] || !Unused(name[0]))
    requires SECTOR_SIZE * MAX_ITERATIONS < |data| <= SECTOR_SIZE * (ENTRIES_PER_SECTOR * n - 3)
    ensures TooLong(b, d, b.rootCluster, name, data) && b.numFats == 2 && b.Mirrored(d)
  {
    b, d := FreshVolume(1, n);
    FreshRoot(b, d);
    FreshDirectoryEmpty(b, d);
    FreshSpace(b, d);
    ManyClusters(b, data, ENTRIES_PER_SECTOR * n - 3);
  }

  lemma ManyClusters(b: BootSector, data: seq<u8>, most: nat)
    requires b.sectorsPerCluster == 1 && SECTOR_SIZE * MAX_ITERATIONS < |data| <= SECTOR_SIZE * most
    ensures MAX_ITERATIONS < Needed(b, data) <= most
  {
    ChunkCountBounds(|data|, SECTOR_SIZE);
  }

  /** More FAT sectors than this would number clusters beyond the end-of-chain mark. */
  const MAX_FAT := 0x1F_FFFF

  /**
   Two FATs of `n` sectors, the root directory in cluster 2, nothing else, and zeros in every data
   sector.
   */
  lemma FreshVolume(sectorsPerCluster: u8, n: nat) returns (b: BootSector, d: Disk)
    requires sectorsPerCluster > 0 && 0 < n <= MAX_FAT
    requires 1 + 2 * n + (ENTRIES_PER_SECTOR * n - 2) * sectorsPerCluster <= U32_LIMIT
    ensures b.Geometry() && b.numFats == 2 && b.sectorsPerCluster == sectorsPerCluster
    ensures b.rootCluster == 2 && b.sectorsPerFat == n
    ensures forall k: u32 :: k < b.Entries() ==> b.Entry(d, k) == if k == 2 then END_OF_CHAIN else 0
    ensures b.Mirrored(d)
    ensures forall lba, k :: lba >= b.DataStart() && 0 <= k < SECTOR_SIZE ==> At(d, lba)[k] == 0
  {
    b := BootSector(sectorsPerCluster, 1, 2, n, 2);
    d := StoreEntry(b, map[], 2, END_OF_CHAIN);
    StoreEntryRefines(b, map[], 2, END_OF_CHAIN);
    assert forall k: u32 :: k < b.Entries() ==> b.Entry(map[], k) == 0;
    FatAreaBounds(b);
    assert b.Mirrored(map[]);
  }

  lemma OneCluster(b: BootSector, data: seq<u8>)
    requires b.sectorsPerCluster > 0 && 0 < |data| <= ClusterSize(b)
    ensures Needed(b, data) == 1
  {
  }

  lemma FreshRoot(b: BootSector, d: Disk)
    requires b.Entries() > 2 && b.Entry(d, 2) == END_OF_CHAIN
    ensures ChainOf(b, d, 2) == Ok([2]) && SoundChain(b, d, 2)
  {
    assert IsChain(b, d, 2, [2]);
    ChainOfIff(b, d, 2, [2]);
  }

  /** All clusters but the root directory's are free. */
  lemma FreshSpace(b: BootSector, d: Disk)
    requires 3 < b.Entries() < U32_LIMIT
    requires forall k: u32 :: k < b.Entries() ==> b.Entry(d, k) == if k == 2 then END_OF_CHAIN else 0
    ensures |FreeSet(b, d)| == b.Entries() - 3 && FirstFree(b, d, 3)
  {
    ClusterCount(3, b.Entries());
    assert FreeSet(b, d) == Clusters(3, b.Entries());
  }

  ghost function Clusters(first: nat, end: nat): set<u32>
    requires end < U32_LIMIT
  {
    if end <= first then {} else Clusters(first, end - 1) + {end - 1}
  }

  lemma {:induction false} ClusterCount(first: nat, end: nat)
    requires first <= end < U32_LIMIT
    ensures |Clusters(first, end)| == end - first
    ensures forall k: u32 :: k in Clusters(first, end) <==> first <= k < end
    decreases end
  {
    if first < end {
      ClusterCount(first, end - 1);
    }
  }

  lemma FreshDirectoryEmpty(b: BootSector, d: Disk)
    requires b.Geometry() && SoundChain(b, d, 2) && ChainOf(b, d, 2) == Ok([2])
    requires forall lba, k :: lba >= b.DataStart() && 0 <= k < SECTOR_SIZE ==> At(d, lba)[k] == 0
    ensures HasRoom(b, d, 2) && DirListing(b, d, 2) == Ok([])
  {
    var bytes := Content(b, d, [2]);
    ContentLength(b, d, [2]);
    forall k: nat | k < |bytes| ensures bytes[k] == 0 {
      FreshByte(b, d, k);
    }
    assert Unused(Lead(bytes, 0));
    ZerosListNothing(bytes);
    SoundContent(b, d, 2);
  }

  lemma FreshByte(b: BootSector, d: Disk, k: nat)
    requires k < ClusterSize(b)
    requires forall lba, i :: lba >= b.DataStart() && 0 <= i < SECTOR_SIZE ==> At(d, lba)[i] == 0
    ensures k < |Content(b, d, [2])| && Content(b, d, [2])[k] == 0
  {
    ContentAt(b, d, [2], 0, k);
  }

  lemma {:induction false} ZerosListNothing(bs: seq<u8>)
    requires forall k :: 0 <= k < |bs| ==> bs[k] == 0
    ensures Listing(bs) == []
  {
    if |bs| >= RECORD_SIZE {
      ZerosListNothing(bs[RECORD_SIZE..]);
    }
  }
}
