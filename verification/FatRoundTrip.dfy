/** Create, list and read: when a new file comes back, and when it comes back whole. */
module FatRoundTrip {
  import opened Bytes
  import opened BlockDevice
  import opened Arithmetic
  import opened FatLayout
  import opened FatChain
  import opened FatContent
  import opened FatAlloc
  import opened Directory
  import opened FatFiles
  import opened FatTheorems

  /** Which cluster of a file a byte is in, and where in that cluster. */
  function DivMod(k: nat, size: nat): (qr: (nat, nat))
    requires size > 0
    ensures k == size * qr.0 + qr.1 && qr.1 < size
  {
    (k / size, k % size)
  }

  /** The byte that `read_file` later returns at `k`: only the first sector of each cluster was written. */
  function StoredByte(b: BootSector, d: Disk, cs: seq<u32>, data: seq<u8>, k: nat): u8
    requires b.sectorsPerCluster > 0 && k < |data|
  {
    var (q, r) := DivMod(k, ClusterSize(b));
    if r < SECTOR_SIZE then data[k]
    else if q < |cs| then ByteAt(d, b.ClusterToSector(cs[q]), r)
    else 0
  }

  function ReadBack(b: BootSector, d: Disk, cs: seq<u32>, data: seq<u8>): (s: seq<u8>)
    requires b.sectorsPerCluster > 0
    ensures |s| == |data|
  {
    seq(|data|, k requires 0 <= k < |data| => StoredByte(b, d, cs, data, k))
  }

  /** The new clusters form the chain of the new file; it can be followed if it is not too long. */
  lemma NewChain(b: BootSector, d: Disk, d': Disk, cs: seq<u32>)
    requires b.Geometry() && LowestFree(b, d, cs) && Linked(b, d, d', cs) && |cs| > 0
    ensures ChainAt(b, d', cs[0], cs)
    ensures ChainOf(b, d', cs[0]) == if |cs| <= MAX_ITERATIONS then Ok(cs) else Err(ChainTooLong)
  {
    forall i | 0 <= i < |cs| - 1 ensures LinkedAt(b, d', cs, i) {
      assert LinkAfter(cs, i) == cs[i + 1];
      assert b.InRange(cs[i + 1]);
    }
    assert b.Entry(d', cs[|cs| - 1]) == LinkAfter(cs, |cs| - 1);
    assert IsChain(b, d', cs[0], cs);
    FollowKnown(b, d', cs[0], cs);
  }

  /** The first sector of a new cluster holds data. */
  lemma NewByteWritten(b: BootSector, d: Disk, mid: Disk, cs: seq<u32>, data: seq<u8>, q: nat, r: nat)
    requires DataStored(b, d, mid, cs, data) && q < |cs| && r < SECTOR_SIZE && ClusterSize(b) * q + r < |data|
    ensures ByteAt(mid, b.ClusterToSector(cs[q]), r) == data[ClusterSize(b) * q + r]
  {
    assert At(mid, b.ClusterToSector(cs[q])) == FirstSector(b, data, q);
    assert r / SECTOR_SIZE == 0 && r % SECTOR_SIZE == r;
  }

  /** The other sectors of a new cluster are as they were. */
  lemma NewByteKept(b: BootSector, d: Disk, mid: Disk, cs: seq<u32>, data: seq<u8>, q: nat, r: nat)
    requires b.Geometry() && DataStored(b, d, mid, cs, data)
    requires q < |cs| && b.InRange(cs[q]) && SECTOR_SIZE <= r < ClusterSize(b)
    ensures ByteAt(mid, b.ClusterToSector(cs[q]), r) == ByteAt(d, b.ClusterToSector(cs[q]), r)
  {
    var n := r / SECTOR_SIZE;
    var lba := b.ClusterToSector(cs[q]) + n;
    assert 0 < n < b.sectorsPerCluster;
    InRangeFits(b, cs[q]);
    forall i | 0 <= i < |cs| ensures lba != b.ClusterToSector(cs[i]) {
      if lba == b.ClusterToSector(cs[i]) {
        ClustersDisjoint(b, cs[q], n, cs[i], 0);
        assert false;
      }
    }
  }

  lemma QuotientBelow(size: nat, k: nat, n: nat)
    requires size > 0 && k < size * n
    ensures DivMod(k, size).0 < n
  {
    var (q, r) := DivMod(k, size);
    if q >= n {
      MultiplyMonotone(n, q, size);
      assert false;
    }
  }

  lemma NewByte(b: BootSector, d: Disk, mid: Disk, cs: seq<u32>, data: seq<u8>, k: nat)
    requires b.Geometry() && (forall i :: 0 <= i < |cs| ==> b.InRange(cs[i]))
    requires DataStored(b, d, mid, cs, data)
    requires k < |data| && |data| <= ClusterSize(b) * |cs|
    ensures k < |Content(b, mid, cs)| && Content(b, mid, cs)[k] == StoredByte(b, d, cs, data, k)
  {
    var (q, r) := DivMod(k, ClusterSize(b));
    QuotientBelow(ClusterSize(b), k, |cs|);
    ContentAt(b, mid, cs, q, r);
    if r < SECTOR_SIZE {
      NewByteWritten(b, d, mid, cs, data, q, r);
    } else {
      NewByteKept(b, d, mid, cs, data, q, r);
    }
  }

  /** The new clusters, cut to the length of the data, hold the bytes described by `ReadBack`. */
  lemma NewContent(b: BootSector, d: Disk, mid: Disk, cs: seq<u32>, data: seq<u8>)
    requires b.Geometry() && LaidOut(b, d, mid, cs, data) && |cs| == Needed(b, data) && data != []
    ensures Truncate(Content(b, mid, cs), |data|) == ReadBack(b, d, cs, data)
  {
    var bytes, s := Content(b, mid, cs), ReadBack(b, d, cs, data);
    ChunkCountBounds(|data|, ClusterSize(b));
    NewByteRead(b, d, mid, cs, data, bytes, s, |s| - 1);
    forall k: nat | k < |s| ensures bytes[k] == s[k] {
      NewByteRead(b, d, mid, cs, data, bytes, s, k);
    }
    TruncateTo(bytes, s);
  }

  lemma NewByteRead(b: BootSector, d: Disk, mid: Disk, cs: seq<u32>, data: seq<u8>, bytes: seq<u8>, s: seq<u8>, k: nat)
    requires b.Geometry() && DataStored(b, d, mid, cs, data) && |data| <= ClusterSize(b) * |cs|
    requires forall i :: 0 <= i < |cs| ==> b.InRange(cs[i])
    requires bytes == Content(b, mid, cs) && s == ReadBack(b, d, cs, data) && k < |s|
    ensures k < |bytes| && bytes[k] == s[k]
  {
    NewByte(b, d, mid, cs, data, k);
    ReadBackAt(b, d, cs, data, k);
  }

  lemma ReadBackAt(b: BootSector, d: Disk, cs: seq<u32>, data: seq<u8>, k: nat)
    requires b.sectorsPerCluster > 0 && k < |data|
    ensures ReadBack(b, d, cs, data)[k] == StoredByte(b, d, cs, data, k)
  {
  }

  lemma TruncateTo(bytes: seq<u8>, s: seq<u8>)
    requires |s| <= |bytes| && forall k: nat :: k < |s| ==> bytes[k] == s[k]
    ensures Truncate(bytes, |s|) == s
  {
  }

  /** Reading the new file: its chain is the clusters taken, untouched by the directory write. */
  lemma NewFileBytes(b: BootSector, x: Creation, e: DirEntry)
    requires b.Geometry() && SoundChain(b, x.before, x.dir)
    requires |x.record| == RECORD_SIZE && Created(b, x) && x.result.Ok?
    requires x.data != [] && Needed(b, x.data) <= MAX_ITERATIONS
    requires e.firstCluster == FirstOr0(x.clusters) && e.fileSize == |x.data|
    ensures FileBytes(b, x.after, e) == Ok(ReadBack(b, x.before, x.clusters, x.data))
  {
    var cs, start, dirChain := x.clusters, FirstOr0(x.clusters), ChainOf(b, x.before, x.dir).value;
    ChunkCountBounds(|x.data|, ClusterSize(b));
    DirKept(b, x);
    NewChain(b, x.before, x.stored, cs);
    SoundIff(b, x.stored, x.dir, dirChain);
    DirPhaseKeeps(b, x.stored, x.after, x.dir, x.record, x.result, start, cs);
    NewContent(b, x.before, x.stored, cs, x.data);
    SoundContent(b, x.after, start);
  }

  lemma ListedAndRead(b: BootSector, x: Creation, e: DirEntry)
    requires b.Geometry() && SoundChain(b, x.before, x.dir)
    requires |x.record| == RECORD_SIZE && Created(b, x) && x.result.Ok?
    requires x.data != [] && Needed(b, x.data) <= MAX_ITERATIONS
    requires e == ParseRecord(x.record) && !Unused(x.record[0])
    requires e.firstCluster == FirstOr0(x.clusters) && e.fileSize == |x.data|
    ensures DirListing(b, x.after, x.dir).Ok? && e in DirListing(b, x.after, x.dir).value
    ensures FileBytes(b, x.after, e) == Ok(ReadBack(b, x.before, x.clusters, x.data))
  {
    NewFileBytes(b, x, e);
    CreateListing(b, x);
    InsertedIsIn(DirListing(b, x.before, x.dir).value, DirListing(b, x.after, x.dir).value, x.record);
  }

  lemma InsertedIsIn(old': seq<DirEntry>, new': seq<DirEntry>, rec: seq<u8>)
    requires |rec| == RECORD_SIZE && Inserted(old', new', rec, true)
    ensures ParseRecord(rec) in new'
  {
    var j :| 0 <= j <= |old'| && new' == old'[..j] + [ParseRecord(rec)] + old'[j..];
    assert new'[j] == ParseRecord(rec);
  }

  /** The entry that the new record is read as. */
  lemma RecordMadeParses(x: Creation)
    requires RecordMade(x)
    ensures |x.record| == RECORD_SIZE
    ensures var e := ParseRecord(x.record);
            e.firstCluster == FirstOr0(x.clusters) && (|x.data| < U32_LIMIT ==> e.fileSize == |x.data|)
    ensures Unused(x.record[0]) <==> x.name != [] && Unused(x.name[0])
  {
    var size := |x.data| % U32_LIMIT;
    assert |x.data| < U32_LIMIT ==> size == |x.data|;
    NewRecordParses(x.name, FirstOr0(x.clusters), size);
    NewRecordLead(x.name, FirstOr0(x.clusters), size);
  }

  /**
   Create, then list, then read: the listing of the directory contains the new entry, and reading
   that entry yields the data, except where a cluster's later sectors keep their old bytes.
   */
  lemma CreateThenRead(b: BootSector, x: Creation)
    requires b.Geometry() && SoundChain(b, x.before, x.dir)
    requires RecordMade(x) && Created(b, x) && x.result.Ok?
    requires x.data != [] && Needed(b, x.data) <= MAX_ITERATIONS
    requires x.name == [] || !Unused(x.name[0])
    ensures var e := ParseRecord(x.record);
            && DirListing(b, x.after, x.dir).Ok? && e in DirListing(b, x.after, x.dir).value
            && FileBytes(b, x.after, e) == Ok(ReadBack(b, x.before, x.clusters, x.data))
  {
    SizeFits(b, x.data);
    RecordMadeParses(x);
    ListedAndRead(b, x, ParseRecord(x.record));
  }

  /** 10000 clusters of at most 255 sectors stay below 4 GiB, so the stored size is the length. */
  lemma SizeFits(b: BootSector, data: seq<u8>)
    requires b.sectorsPerCluster > 0 && Needed(b, data) <= MAX_ITERATIONS
    ensures |data| < U32_LIMIT
  {
    if data != [] {
      var n, size: nat := Needed(b, data), ClusterSize(b);
      ChunkCountBounds(|data|, size);
      MultiplyMonotone(n, MAX_ITERATIONS, size);
      assert size * n == n * size;
    }
  }

  // ---------- Which new files can be read ----------

  /** A file of more than 10000 clusters is created but can never be read. */
  lemma LongFileUnreadable(b: BootSector, x: Creation, e: DirEntry)
    requires b.Geometry() && SoundChain(b, x.before, x.dir)
    requires |x.record| == RECORD_SIZE && Created(b, x) && x.result.Ok?
    requires Needed(b, x.data) > MAX_ITERATIONS && e.firstCluster == FirstOr0(x.clusters)
    ensures FileBytes(b, x.after, e) == Err(ChainTooLong)
  {
    CreateTable(b, x);
    NewChain(b, x.before, x.after, x.clusters);
  }

  /** A new empty file is listed with cluster 0 and size 0, and can never be read. */
  lemma EmptyFileUnreadable(b: BootSector, x: Creation)
    requires RecordMade(x) && Created(b, x) && x.data == [] && |x.name| <= MAX_NAME
    ensures var e := ParseRecord(x.record);
            e.firstCluster == 0 && e.fileSize == 0 && !FileBytes(b, x.after, e).Ok?
  {
    RecordMadeParses(x);
    NoClustersTaken(b, x);
    Cluster0Unreadable(b, x.after);
  }

  lemma NoClustersTaken(b: BootSector, x: Creation)
    requires |x.record| == RECORD_SIZE && Created(b, x) && x.data == []
    ensures x.clusters == []
  {
  }

  lemma Cluster0Unreadable(b: BootSector, d: Disk)
    ensures !ChainContent(b, d, 0).Ok?
  {
    if ChainOf(b, d, 0).Ok? {
      assert ChainOf(b, d, 0).value[0] == 0;
      assert !b.Fits(0);
    }
  }

  /** A new file can be read if and only if it is not empty and takes at most 10000 clusters. */
  lemma ReadableIff(b: BootSector, x: Creation)
    requires b.Geometry() && SoundChain(b, x.before, x.dir)
    requires RecordMade(x) && Created(b, x) && x.result.Ok?
    ensures FileBytes(b, x.after, ParseRecord(x.record)).Ok?
            <==> x.data != [] && Needed(b, x.data) <= MAX_ITERATIONS
    ensures x.data != [] && Needed(b, x.data) <= MAX_ITERATIONS ==>
              FileBytes(b, x.after, ParseRecord(x.record)) == Ok(ReadBack(b, x.before, x.clusters, x.data))
  {
    RecordMadeParses(x);
    if x.data == [] {
      EmptyFileUnreadable(b, x);
    } else if Needed(b, x.data) > MAX_ITERATIONS {
      LongFileUnreadable(b, x, ParseRecord(x.record));
    } else {
      SizeFits(b, x.data);
      NewFileBytes(b, x, ParseRecord(x.record));
    }
  }

  // ---------- Which new files come back whole ----------

  /** Byte `k` of the data is in the first sector of its cluster, or was on the disk already. */
  ghost predicate Held(b: BootSector, x: Creation, k: nat)
    requires b.sectorsPerCluster > 0 && k < |x.data|
  {
    var (q, r) := DivMod(k, ClusterSize(b));
    r >= SECTOR_SIZE ==> q < |x.clusters| && ByteAt(x.before, b.ClusterToSector(x.clusters[q]), r) == x.data[k]
  }

  /** The bytes that come back are the data exactly when each of them is held. */
  lemma ReadBackIff(b: BootSector, x: Creation)
    requires b.sectorsPerCluster > 0 && |x.data| <= ClusterSize(b) * |x.clusters|
    ensures ReadBack(b, x.before, x.clusters, x.data) == x.data <==> forall k: nat :: k < |x.data| ==> Held(b, x, k)
  {
    var s := ReadBack(b, x.before, x.clusters, x.data);
    forall k: nat | k < |x.data| ensures s[k] == x.data[k] <==> Held(b, x, k) {
      QuotientBelow(ClusterSize(b), k, |x.clusters|);
      assert s[k] == StoredByte(b, x.before, x.clusters, x.data, k);
    }
    if forall k: nat :: k < |x.data| ==> Held(b, x, k) {
      assert s == x.data;
    }
  }

  /**
   Creating a file and reading it gives the data back if and only if the file is readable at all and
   every byte outside the first sectors of the clusters taken was there before the call.
   */
  lemma RoundTripIff(b: BootSector, x: Creation)
    requires b.Geometry() && SoundChain(b, x.before, x.dir)
    requires RecordMade(x) && Created(b, x) && x.result.Ok?
    ensures FileBytes(b, x.after, ParseRecord(x.record)) == Ok(x.data) <==>
            && x.data != [] && Needed(b, x.data) <= MAX_ITERATIONS
            && forall k: nat :: k < |x.data| ==> Held(b, x, k)
  {
    RecordMadeParses(x);
    ReadableIff(b, x);
    if x.data != [] {
      ChunkCountBounds(|x.data|, ClusterSize(b));
      ReadBackIff(b, x);
    }
  }

  /** One sector per cluster, or data that fits one sector: nothing depends on what the disk held. */
  lemma AlwaysHeld(b: BootSector, x: Creation, k: nat)
    requires b.sectorsPerCluster > 0 && k < |x.data|
    requires b.sectorsPerCluster == 1 || |x.data| <= SECTOR_SIZE
    ensures Held(b, x, k)
  {
    if b.sectorsPerCluster > 1 {
      QuotientBelow(ClusterSize(b), k, 1);
    }
  }

  // ---------- The same call on another disk ----------

  /** `y` is a successful call like `x`, on a disk with the same free clusters and another content. */
  ghost predicate Twin(b: BootSector, x: Creation, y: Creation) {
    && y.dir == x.dir && y.name == x.name && y.data == x.data
    && FreeSet(b, y.before) == FreeSet(b, x.before) && SoundChain(b, y.before, y.dir)
    && y.clusters == x.clusters && y.record == x.record && |y.record| == RECORD_SIZE
    && Created(b, y) && y.result.Ok?
  }

  /** The two disks hold the same in every sector of the clusters `p`. */
  ghost predicate Agree(b: BootSector, d: Disk, d': Disk, p: seq<u32>) {
    forall k :: Occupies(b, p, k) ==> At(d', k) == At(d, k)
  }

  /** A sector of a free cluster is in no chain. */
  lemma FreeSectorUnseen(b: BootSector, d: Disk, cs: seq<u32>, q: nat, n: nat, start: u32, p: seq<u32>, lba: int)
    requires LowestFree(b, d, cs) && q < |cs| && n < b.sectorsPerCluster
    requires ChainAt(b, d, start, p) && Occupies(b, p, lba)
    ensures lba != b.ClusterToSector(cs[q]) + n
  {
    NewClustersApart(b, d, cs, start, p);
    var c :| c in p && b.ClusterToSector(c) <= lba < b.ClusterToSector(c) + b.sectorsPerCluster;
    if lba == b.ClusterToSector(cs[q]) + n {
      ClustersDisjoint(b, c, lba - b.ClusterToSector(c), cs[q], n);
      assert false;
    }
  }

  /** Changing it changes no table entry. */
  lemma FreeSectorChange(b: BootSector, d: Disk, d': Disk, cs: seq<u32>, n: nat, start: u32, p: seq<u32>)
    requires b.Geometry() && LowestFree(b, d, cs) && cs != [] && n < b.sectorsPerCluster
    requires ChainAt(b, d, start, p) && OnlyAt(d, d', b.ClusterToSector(cs[0]) + n)
    ensures LowestFree(b, d', cs) && FreeSet(b, d') == FreeSet(b, d) && ChainAt(b, d', start, p)
    ensures Agree(b, d, d', p)
  {
    InRangeFits(b, cs[0]);
    DataWriteKeepsFat(b, d, d', b.ClusterToSector(cs[0]) + n);
    SameTable(b, d, d', cs, start, p);
    forall k | Occupies(b, p, k) ensures At(d', k) == At(d, k) {
      FreeSectorUnseen(b, d, cs, 0, n, start, p, k);
    }
  }

  lemma SameTable(b: BootSector, d: Disk, d': Disk, cs: seq<u32>, start: u32, p: seq<u32>)
    requires LowestFree(b, d, cs) && ChainAt(b, d, start, p)
    requires forall k: u32 :: k < b.Entries() ==> b.Entry(d', k) == b.Entry(d, k)
    ensures LowestFree(b, d', cs) && FreeSet(b, d') == FreeSet(b, d) && ChainAt(b, d', start, p)
  {
    ChainFrame(b, d, d', start, p);
    SameFree(b, d, d', cs);
  }

  lemma SameFree(b: BootSector, d: Disk, d': Disk, cs: seq<u32>)
    requires LowestFree(b, d, cs)
    requires forall k: u32 :: k < b.Entries() ==> b.Entry(d', k) == b.Entry(d, k)
    ensures LowestFree(b, d', cs) && FreeSet(b, d') == FreeSet(b, d)
  {
  }

  /** Storing the same data on two disks that agree on the chain `p` leaves disks that agree on it. */
  lemma SameSectors(b: BootSector, x: Creation, y: Creation, p: seq<u32>, k: int)
    requires b.Geometry() && ChainAt(b, x.before, x.dir, p) && Occupies(b, p, k)
    requires LaidOut(b, x.before, x.stored, x.clusters, x.data)
    requires LaidOut(b, y.before, y.stored, x.clusters, x.data)
    requires At(y.before, k) == At(x.before, k)
    ensures At(y.stored, k) == At(x.stored, k)
  {
    NewClustersApart(b, x.before, x.clusters, x.dir, p);
    DataPhaseSectors(b, x.before, x.stored, x.clusters, x.data, p, k);
    DataPhaseSectors(b, y.before, y.stored, x.clusters, x.data, p, k);
  }

  /** A directory write made on another disk that agrees on the directory. */
  lemma SameRecordStored(b: BootSector, d: Disk, d': Disk, e: Disk, e': Disk,
                         p: seq<u32>, rec: seq<u8>, j: nat, lba: int)
    requires |rec| == RECORD_SIZE && RecordStored(b, d, d', p, rec, j, lba)
    requires OnlyAt(e, e', lba) && At(e', lba) == At(d', lba)
    requires Agree(b, d, e, p)
    ensures RecordStored(b, e, e', p, rec, j, lba)
  {
    ContentFrame(b, d, e, p);
    ContentFrame(b, d', e', p);
  }

  /** The call `x` made on the disk `d` instead, with the directory sector `lba` ending up the same. */
  ghost function On(b: BootSector, x: Creation, d: Disk, lba: int): Creation {
    var stored := AfterStoring(b, d, x.clusters, x.data);
    x.(before := d, stored := stored, after := stored[lba := At(x.after, lba)])
  }

  /** Both calls leave the directory alone in the data phase and store the record in the same place. */
  lemma OnStores(b: BootSector, x: Creation, y: Creation, p: seq<u32>, j: nat, lba: int)
    requires b.Geometry() && |x.record| == RECORD_SIZE
    requires LaidOut(b, x.before, x.stored, x.clusters, x.data) && LowestFree(b, y.before, x.clusters)
    requires ChainAt(b, x.before, x.dir, p) && ChainAt(b, y.before, x.dir, p) && Agree(b, x.before, y.before, p)
    requires RecordStored(b, x.stored, x.after, p, x.record, j, lba) && y == On(b, x, y.before, lba)
    ensures RecordStored(b, y.stored, y.after, p, x.record, j, lba) && ChainAt(b, y.stored, x.dir, p)
  {
    StoringLaysOut(b, y.before, x.clusters, x.data);
    forall k | Occupies(b, p, k) ensures At(y.stored, k) == At(x.stored, k) {
      SameSectors(b, x, y, p, k);
    }
    SameRecordStored(b, x.stored, x.after, y.stored, y.after, p, x.record, j, lba);
    DataPhaseKeeps(b, y.before, y.stored, x.clusters, x.data, x.dir, p);
  }

  /** It is a call that `create_file` can make. */
  lemma OnIsCreated(b: BootSector, x: Creation, y: Creation, p: seq<u32>, j: nat, lba: int)
    requires |x.record| == RECORD_SIZE && Created(b, x) && x.result.Ok? && |p| <= MAX_ITERATIONS
    requires y == On(b, x, y.before, lba)
    requires LowestFree(b, y.before, x.clusters) && FreeSet(b, y.before) == FreeSet(b, x.before)
    requires RecordStored(b, y.stored, y.after, p, x.record, j, lba) && ChainAt(b, y.stored, x.dir, p)
    ensures Created(b, y)
  {
    FollowKnown(b, y.stored, x.dir, p);
    assert RecordAdded(b, y.stored, y.after, p, x.record, x.result);
  }

  /** In every other case the same call loses data on a disk that differs in one sector of a free cluster. */
  lemma RoundTripLoses(b: BootSector, x: Creation) returns (y: Creation)
    requires b.Geometry() && SoundChain(b, x.before, x.dir)
    requires RecordMade(x) && |x.record| == RECORD_SIZE && Created(b, x) && x.result.Ok?
    requires b.sectorsPerCluster > 1 && |x.data| > SECTOR_SIZE
    ensures Twin(b, x, y) && |x.clusters| > 0 && OnlyAt(x.before, y.before, b.ClusterToSector(x.clusters[0]) + 1)
    ensures FileBytes(b, y.after, ParseRecord(y.record)) != Ok(y.data)
  {
    ChunkCountBounds(|x.data|, ClusterSize(b));
    var lba := b.ClusterToSector(x.clusters[0]) + 1;
    var d := Spoilt(x.before, lba, x.data[SECTOR_SIZE]);
    y := TwinOn(b, x, d);
    TwinLoses(b, x, y, lba);
  }

  lemma TwinLoses(b: BootSector, x: Creation, y: Creation, lba: int)
    requires b.Geometry() && RecordMade(x) && Twin(b, x, y)
    requires b.sectorsPerCluster > 1 && |x.data| > SECTOR_SIZE && |x.clusters| > 0
    requires lba == b.ClusterToSector(x.clusters[0]) + 1 && At(y.before, lba)[0] != x.data[SECTOR_SIZE]
    ensures FileBytes(b, y.after, ParseRecord(y.record)) != Ok(y.data)
  {
    NotHeld(b, y, lba);
    RoundTripIff(b, y);
  }

  lemma Spoilt(d: Disk, lba: int, byte: u8) returns (d': Disk)
    ensures OnlyAt(d, d', lba) && At(d', lba)[0] != byte
  {
    d' := d[lba := seq(SECTOR_SIZE, _ => if byte == 0 then 1 else 0)];
  }

  lemma NotHeld(b: BootSector, x: Creation, lba: int)
    requires b.sectorsPerCluster > 1 && |x.data| > SECTOR_SIZE && |x.clusters| > 0
    requires lba == b.ClusterToSector(x.clusters[0]) + 1 && At(x.before, lba)[0] != x.data[SECTOR_SIZE]
    ensures !Held(b, x, SECTOR_SIZE)
  {
    QuotientBelow(ClusterSize(b), SECTOR_SIZE, 1);
  }

  lemma WhereStored(b: BootSector, x: Creation, p: seq<u32>) returns (j: nat, lba: int)
    requires |x.record| == RECORD_SIZE && DirEntryWritten(b, x.stored, x.after, x.dir, x.record, x.result)
    requires x.result.Ok? && ChainOf(b, x.stored, x.dir) == Ok(p)
    ensures RecordStored(b, x.stored, x.after, p, x.record, j, lba)
  {
    j, lba :| RecordStored(b, x.stored, x.after, p, x.record, j, lba);
  }

  /** The same call on a disk that differs in the second sector of the first cluster taken. */
  lemma TwinOn(b: BootSector, x: Creation, d: Disk) returns (y: Creation)
    requires b.Geometry() && SoundChain(b, x.before, x.dir)
    requires |x.record| == RECORD_SIZE && Created(b, x) && x.result.Ok?
    requires b.sectorsPerCluster > 1 && |x.clusters| > 0
    requires OnlyAt(x.before, d, b.ClusterToSector(x.clusters[0]) + 1)
    ensures y.before == d && Twin(b, x, y)
  {
    var p := ChainOf(b, x.before, x.dir).value;
    SoundIff(b, x.before, x.dir, p);
    DirKept(b, x);
    var j, lba := WhereStored(b, x, p);
    y := On(b, x, d, lba);
    FreeSectorChange(b, x.before, d, x.clusters, 1, x.dir, p);
    OnStores(b, x, y, p, j, lba);
    OnIsTwin(b, x, y, p, j, lba);
  }

  lemma OnIsTwin(b: BootSector, x: Creation, y: Creation, p: seq<u32>, j: nat, lba: int)
    requires |x.record| == RECORD_SIZE && Created(b, x) && x.result.Ok? && |p| <= MAX_ITERATIONS
    requires y == On(b, x, y.before, lba) && ChainAt(b, y.before, x.dir, p)
    requires LowestFree(b, y.before, x.clusters) && FreeSet(b, y.before) == FreeSet(b, x.before)
    requires RecordStored(b, y.stored, y.after, p, x.record, j, lba) && ChainAt(b, y.stored, x.dir, p)
    ensures Twin(b, x, y)
  {
    OnIsCreated(b, x, y, p, j, lba);
    SoundIff(b, y.before, x.dir, p);
  }

  /** Every such call gives its data back. */
  ghost predicate SafeTrip(b: BootSector, x: Creation) {
    forall y: Creation :: Twin(b, x, y) ==> FileBytes(b, y.after, ParseRecord(y.record)) == Ok(y.data)
  }

  /**
   Creating and reading gives the data back whatever the free clusters held before if and only if
   the file is readable at all and each chunk of it fits one sector.
   */
  lemma RoundTripSafeIff(b: BootSector, x: Creation)
    requires b.Geometry() && SoundChain(b, x.before, x.dir)
    requires RecordMade(x) && |x.record| == RECORD_SIZE && Created(b, x) && x.result.Ok?
    ensures SafeTrip(b, x) <==>
            && x.data != [] && Needed(b, x.data) <= MAX_ITERATIONS
            && (b.sectorsPerCluster == 1 || |x.data| <= SECTOR_SIZE)
  {
    if x.data != [] && Needed(b, x.data) <= MAX_ITERATIONS && (b.sectorsPerCluster == 1 || |x.data| <= SECTOR_SIZE) {
      forall y: Creation | Twin(b, x, y) ensures FileBytes(b, y.after, ParseRecord(y.record)) == Ok(y.data) {
        RoundTripExact(b, y);
      }
    } else if x.data == [] || Needed(b, x.data) > MAX_ITERATIONS {
      assert Twin(b, x, x);
      ReadableIff(b, x);
    } else {
      var y := RoundTripLoses(b, x);
    }
  }

  /** Readable data of one sector per cluster, or of at most one sector, comes back whole. */
  lemma RoundTripExact(b: BootSector, x: Creation)
    requires b.Geometry() && SoundChain(b, x.before, x.dir)
    requires RecordMade(x) && Created(b, x) && x.result.Ok?
    requires x.data != [] && Needed(b, x.data) <= MAX_ITERATIONS
    requires b.sectorsPerCluster == 1 || |x.data| <= SECTOR_SIZE
    ensures FileBytes(b, x.after, ParseRecord(x.record)) == Ok(x.data)
  {
    forall k: nat | k < |x.data| ensures Held(b, x, k) {
      AlwaysHeld(b, x, k);
    }
    RoundTripIff(b, x);
  }
}
