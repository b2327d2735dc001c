/** The FAT32 driver: every operation on the block device, proved against its meaning on disk images. */
module Fat32 {
  import opened Common
  import opened Bytes
  import opened BlockDevice
  import opened Arithmetic
  import opened FatLayout
  import opened FatChain
  import opened FatContent
  import opened FatAlloc
  import opened Directory
  import opened FatFiles

  /** The entries of one directory sector. */
  method ListSector(sector: Sector) returns (entries: seq<DirEntry>)
    ensures entries == Listing(sector)
  {
    entries := [];
    for i := 0 to 16
      invariant entries == Listing(sector[..RECORD_SIZE * i])
    {
      var rec := sector[RECORD_SIZE * i..RECORD_SIZE * (i + 1)];
      ListNextRecord(sector, i, rec);
      if !Unused(rec[0]) {
        entries := entries + [ParseRecord(rec)];
      }
    }
    assert sector[..RECORD_SIZE * 16] == sector;
  }

  /** The first unused record of one directory sector, or 16. */
  method ScanSector(sector: Sector) returns (slot: nat)
    ensures slot <= 16
    ensures forall i: nat :: i < slot ==> !Unused(Lead(sector, i))
    ensures slot < 16 ==> Unused(Lead(sector, slot))
  {
    slot := 0;
    while slot < 16
      invariant slot <= 16
      invariant forall i: nat :: i < slot ==> !Unused(Lead(sector, i))
    {
      if sector[RECORD_SIZE * slot] == 0x00 || sector[RECORD_SIZE * slot] == 0xE5 {
        assert Unused(Lead(sector, slot));
        return;
      }
      slot := slot + 1;
    }
  }

  /** The first 512 bytes of a chunk, followed by zeros. */
  method FillSector(chunk: seq<u8>) returns (s: Sector)
    ensures forall k :: 0 <= k < SECTOR_SIZE ==> s[k] == if k < |chunk| then chunk[k] else 0
  {
    var a := new u8[SECTOR_SIZE](_ => 0);
    for i := 0 to |chunk|
      invariant forall k :: 0 <= k < SECTOR_SIZE ==> a[k] == if k < i then chunk[k] else 0
    {
      if i < SECTOR_SIZE {
        a[i] := chunk[i];
      }
    }
    s := a[..];
  }

  class Volume {
    const boot: BootSector
    const device: Device

    constructor (boot: BootSector, device: Device)
      ensures this.boot == boot && this.device == device
    {
      this.boot, this.device := boot, device;
    }

    method FollowClusterChain(start: u32) returns (r: Result<seq<u32>>)
      ensures r == ChainOf(boot, device.sectors, start)
    {
      ghost var d := device.sectors;
      var clusters: seq<u32> := [];
      var current: u32 := start;
      var iterations := 0;
      while true
        invariant iterations == |clusters| <= MAX_ITERATIONS
        invariant IsPath(boot, d, start, clusters + [current])
        decreases MAX_ITERATIONS - iterations
      {
        if iterations >= MAX_ITERATIONS {
          LongPath(boot, d, start, clusters + [current]);
          return Err(ChainTooLong);
        }
        iterations := iterations + 1;
        clusters := clusters + [current];
        var sector := device.Read(boot.FatSector(current));
        var next := Get32(sector, EntryOffset(current));
        if next >= END_OF_CHAIN {
          ChainOfIff(boot, d, start, clusters);
          return Ok(clusters);
        }
        PathExtends(boot, d, start, clusters);
        current := next;
      }
    }

    /** `cluster_to_sector` with checked arithmetic. */
    method LocateCluster(c: u32) returns (r: Result<u32>)
      ensures r == if c >= 2 && boot.ClusterToSector(c) < U32_LIMIT then Ok(boot.ClusterToSector(c)) else Panic
    {
      if c < 2 || boot.ClusterToSector(c) >= U32_LIMIT {
        return Panic;
      }
      LocatedIsNat(boot, c);
      return Ok(boot.ClusterToSector(c));
    }

    /** The sectors of one cluster, one after the other. */
    method ReadCluster(c: u32) returns (r: Result<seq<u8>>)
      ensures r == if boot.Fits(c)
                   then Ok(SectorBytes(device.sectors, boot.ClusterToSector(c), boot.sectorsPerCluster)) else Panic
    {
      var base := LocateCluster(c);
      if base.Panic? { return Panic; }
      var data: seq<u8> := [];
      for j := 0 to boot.sectorsPerCluster
        invariant base.value + j <= U32_LIMIT
        invariant data == SectorBytes(device.sectors, base.value, j)
      {
        if base.value + j >= U32_LIMIT { return Panic; }
        var sector := device.Read(base.value + j);
        data := data + sector;
      }
      return Ok(data);
    }

    method ReadFile(entry: DirEntry) returns (r: Result<seq<u8>>)
      ensures r == FileBytes(boot, device.sectors, entry)
    {
      ghost var d := device.sectors;
      var chain := FollowClusterChain(entry.firstCluster);
      if !chain.Ok? {
        return if chain.Panic? then Panic else Err(chain.error);
      }
      var clusters := chain.value;
      var data: seq<u8> := [];
      for i := 0 to |clusters|
        invariant forall c :: c in clusters[..i] ==> boot.Fits(c)
        invariant data == Content(boot, d, clusters[..i])
      {
        var bytes := ReadCluster(clusters[i]);
        if bytes.Panic? { return Panic; }
        data := data + bytes.value;
        ContentNext(boot, d, clusters, i);
      }
      assert clusters[..|clusters|] == clusters;
      return Ok(Truncate(data, entry.fileSize));
    }

    /** The entries of one directory cluster. */
    method ListCluster(c: u32) returns (r: Result<seq<DirEntry>>)
      ensures r == if boot.Fits(c)
                   then Ok(Listing(SectorBytes(device.sectors, boot.ClusterToSector(c), boot.sectorsPerCluster)))
                   else Panic
    {
      var base := LocateCluster(c);
      if base.Panic? || base.value + boot.sectorsPerCluster > U32_LIMIT { return Panic; }
      var entries := ListSectors(base.value, boot.sectorsPerCluster);
      return Ok(entries);
    }

    method ListSectors(first: u32, n: nat) returns (entries: seq<DirEntry>)
      requires first + n <= U32_LIMIT
      ensures entries == Listing(SectorBytes(device.sectors, first, n))
    {
      entries := [];
      for j := 0 to n
        invariant entries == Listing(SectorBytes(device.sectors, first, j))
      {
        var sector := device.Read(first + j);
        var more := ListSector(sector);
        entries := entries + more;
        ListNextSector(device.sectors, first, j);
      }
    }

    method ListDirectory(cluster: u32) returns (r: Result<seq<DirEntry>>)
      ensures r == DirListing(boot, device.sectors, cluster)
    {
      ghost var d := device.sectors;
      var chain := FollowClusterChain(cluster);
      if !chain.Ok? {
        return if chain.Panic? then Panic else Err(chain.error);
      }
      var clusters := chain.value;
      var entries: seq<DirEntry> := [];
      for i := 0 to |clusters|
        invariant forall c :: c in clusters[..i] ==> boot.Fits(c)
        invariant entries == Listing(Content(boot, d, clusters[..i]))
      {
        var more := ListCluster(clusters[i]);
        if more.Panic? { return Panic; }
        entries := entries + more.value;
        ListNextCluster(boot, d, clusters, i);
      }
      assert clusters[..|clusters|] == clusters;
      return Ok(entries);
    }

    /** The lowest-numbered free cluster; the index arithmetic can only overflow on an oversized FAT. */
    method FindFreeCluster() returns (r: Result<u32>)
      ensures match r
              case Ok(c) => FirstFree(boot, device.sectors, c)
              case Err(e) => e == NoFreeClusters && NoneFree(boot, device.sectors)
              case Panic => boot.sectorsPerFat > 0x80_0000
    {
      ghost var d := device.sectors;
      for idx := 0 to boot.sectorsPerFat
        invariant NoneFreeBelow(boot, d, idx * 128)
      {
        if boot.FatStart() + idx >= U32_LIMIT { return Panic; }
        var sector := device.Read(boot.FatStart() + idx);
        var found := FindInSector(idx, sector);
        if found.Panic? { return Panic; }
        if found.value.Some? { return Ok(found.value.value); }
      }
      return Err(NoFreeClusters);
    }

    /** The lowest free cluster whose entry lies in FAT sector number `idx`. */
    method FindInSector(idx: nat, sector: Sector) returns (r: Result<Option<u32>>)
      requires idx < boot.sectorsPerFat && sector == At(device.sectors, boot.FatStart() + idx)
      requires NoneFreeBelow(boot, device.sectors, idx * 128)
      ensures match r
              case Ok(Some(c)) => FirstFree(boot, device.sectors, c)
              case Ok(None) => NoneFreeBelow(boot, device.sectors, (idx + 1) * 128)
              case Panic => boot.sectorsPerFat > 0x80_0000
              case Err(_) => false
    {
      var offset := 0;
      while offset < SECTOR_SIZE
        invariant 0 <= offset <= SECTOR_SIZE && offset % 4 == 0
        invariant NoneFreeBelow(boot, device.sectors, idx * 128 + offset / 4)
      {
        var value := Get32(sector, offset);
        if value == 0 {
          if idx * 512 + offset >= U32_LIMIT { return Panic; }
          var c := (idx * 512 + offset) / 4;
          if c >= 2 {
            FreeFound(boot, device.sectors, idx, offset, c);
            return Ok(Some(c));
          }
        }
        NotFree(boot, device.sectors, idx, offset);
        offset := offset + 4;
      }
      return Ok(None);
    }

    method SetFatEntry(c: u32, v: u32) returns (r: Result<()>)
      modifies device
      ensures device.sectors == StoreEntry(boot, old(device.sectors), c, v)
      ensures r == if boot.numFats > 1 && boot.FatSector(c) + boot.sectorsPerFat >= U32_LIMIT then Panic else Ok(())
      ensures boot.Geometry() && c < boot.Entries() ==>
                r.Ok? && boot.EntryStored(old(device.sectors), device.sectors, c, v)
    {
      ghost var d := device.sectors;
      if boot.Geometry() && c < boot.Entries() {
        StoreEntryRefines(boot, d, c, v);
        FatAreaBounds(boot);
      }
      var number := boot.FatSector(c);
      var sector := device.Read(number);
      sector := Patch(sector, EntryOffset(c), Put32(v));
      device.Write(number, sector);
      if boot.numFats > 1 {
        if number + boot.sectorsPerFat >= U32_LIMIT { return Panic; }
        device.Write(number + boot.sectorsPerFat, sector);
      }
      return Ok(());
    }

    /** Takes the lowest free cluster and links it between `prev` and `next`. */
    method AllocateCluster(prev: Option<u32>, next: Option<u32>) returns (r: Result<u32>)
      modifies device
      ensures boot.Geometry() && (prev.Some? ==> prev.value < boot.Entries()) ==>
                match r
                case Ok(c) =>
                  var v := if next.None? then END_OF_CHAIN else next.value;
                  && FirstFree(boot, old(device.sectors), c)
                  && device.sectors == LinkFree(boot, old(device.sectors), prev, c, v)
                  && Chained(boot, old(device.sectors), device.sectors, prev, c, v)
                case Err(e) => e == NoFreeClusters && NoneFree(boot, old(device.sectors))
                               && device.sectors == old(device.sectors)
                case Panic => false
    {
      var found := FindFreeCluster();
      if !found.Ok? { return found; }
      var c := found.value;
      if prev.Some? {
        var linked := SetFatEntry(prev.value, c);
        if linked.Panic? { return Panic; }
      }
      var v := if next.None? then END_OF_CHAIN else next.value;
      var marked := SetFatEntry(c, v);
      if marked.Panic? { return Panic; }
      if boot.Geometry() && (prev.Some? ==> prev.value < boot.Entries()) {
        LinkFreeRefines(boot, old(device.sectors), prev, c, v);
      }
      return Ok(c);
    }

    /** Stores `rec` in the first unused record of `n` sectors, if there is one. */
    method WriteInSectors(first: u32, n: nat, rec: seq<u8>) returns (r: Result<bool>)
      requires |rec| == RECORD_SIZE
      modifies device
      ensures match r
              case Ok(true) => exists j, lba ::
                StoredInRun(old(device.sectors), device.sectors, first, n, rec, j, lba)
              case Ok(false) => device.sectors == old(device.sectors)
                                && NoneUnused(SectorBytes(device.sectors, first, n))
              case Panic => device.sectors == old(device.sectors) && first + n > U32_LIMIT
              case Err(_) => false
    {
      ghost var d := device.sectors;
      for i := 0 to n
        invariant device.sectors == d && first + i <= U32_LIMIT
        invariant NoneUnused(SectorBytes(d, first, i))
      {
        if first + i >= U32_LIMIT { return Panic; }
        var sector := device.Read(first + i);
        var slot := ScanSector(sector);
        if slot < 16 {
          device.Write(first + i, Patch(sector, RECORD_SIZE * slot, rec));
          StoreInRun(d, device.sectors, first, n, i, slot, rec);
          return Ok(true);
        }
        NextSectorFull(d, first, i, sector);
      }
      return Ok(false);
    }

    method WriteDirEntry(dir: u32, rec: seq<u8>) returns (r: Result<()>)
      requires |rec| == RECORD_SIZE
      modifies device
      ensures DirEntryWritten(boot, old(device.sectors), device.sectors, dir, rec, r)
    {
      ghost var d := device.sectors;
      var chain := FollowClusterChain(dir);
      if !chain.Ok? {
        return if chain.Panic? then Panic else Err(chain.error);
      }
      var cs := chain.value;
      for i := 0 to |cs|
        invariant device.sectors == d
        invariant NoneUnused(Content(boot, d, cs[..i]))
      {
        var done := WriteInCluster(cs[i], rec);
        if done.Panic? {
          WritePanics(boot, d, dir, cs, i, rec);
          return Panic;
        }
        if done.value {
          WriteStored(boot, d, device.sectors, dir, cs, i, rec);
          return Ok(());
        }
        NextClusterFull(boot, d, cs, i);
      }
      assert cs[..|cs|] == cs;
      WriteFull(boot, d, dir, cs, rec);
      return Err(NoFreeDirEntries);
    }

    /** Allocates a cluster behind `prev` and writes a chunk to its first sector. */
    method StoreChunk(prev: Option<u32>, chunk: seq<u8>) returns (r: Result<u32>, ghost s: Sector)
      modifies device
      ensures forall k :: 0 <= k < SECTOR_SIZE ==> s[k] == if k < |chunk| then chunk[k] else 0
      ensures boot.Geometry() && (prev.Some? ==> prev.value < boot.Entries()) ==>
                match r
                case Ok(c) => FirstFree(boot, old(device.sectors), c)
                              && device.sectors == StoreOne(boot, old(device.sectors), prev, c, s)
                case Err(e) => e == NoFreeClusters && NoneFree(boot, old(device.sectors))
                               && device.sectors == old(device.sectors)
                case Panic => false
    {
      var sector := FillSector(chunk);
      s := sector;
      var c := AllocateCluster(prev, None);
      if !c.Ok? { return c, s; }
      if boot.Geometry() && (prev.Some? ==> prev.value < boot.Entries()) {
        InRangeFits(boot, c.value);
      }
      var base := LocateCluster(c.value);
      if base.Panic? { return Panic, s; }
      device.Write(base.value, sector);
      return c, s;
    }

    /** One round of `StoreData`: the chunk at `pos` goes to the next free cluster. */
    method StoreNext(prev: Option<u32>, data: seq<u8>, pos: nat, ghost d: Disk, ghost cs: seq<u32>)
      returns (r: Result<u32>)
      requires boot.sectorsPerCluster > 0 && pos < |data| && pos == ClusterSize(boot) * |cs|
      requires prev == LastOf(cs) && (boot.Geometry() ==> Storing(boot, d, device.sectors, cs, data))
      modifies device
      ensures boot.Geometry() ==>
                match r
                case Ok(c) => Storing(boot, d, device.sectors, cs + [c], data)
                case Err(e) => e == NoFreeClusters && NoneFree(boot, device.sectors)
                               && device.sectors == old(device.sectors)
                case Panic => false
    {
      if boot.Geometry() && cs != [] {
        LastInRange(boot, d, cs[..|cs| - 1], cs[|cs| - 1]) by { LowestPrefix(boot, d, cs); }
      }
      var c, s := StoreChunk(prev, ChunkAt(data, pos, ClusterSize(boot)));
      if boot.Geometry() && c.Ok? {
        StoredOneMore(boot, d, old(device.sectors), cs, c.value, data, pos, s);
      }
      return c;
    }

    /** Writes `data` to newly allocated clusters, one chunk per cluster; yields the first of them. */
    method StoreData(data: seq<u8>) returns (r: Result<u32>, ghost cs: seq<u32>)
      requires boot.sectorsPerCluster > 0
      modifies device
      ensures boot.Geometry() ==>
                && Storing(boot, old(device.sectors), device.sectors, cs, data)
                && (if r.Ok? then |cs| == Needed(boot, data) && r.value == FirstOr0(cs)
                    else r == Err(NoFreeClusters) && |cs| < Needed(boot, data) && NoneFree(boot, device.sectors))
    {
      ghost var d := device.sectors;
      var size := ClusterSize(boot);
      var current: Option<u32>, first: Option<u32> := None, None;
      var pos := 0;
      cs := [];
      StoringNothing(boot, d, data);
      while pos < |data|
        invariant pos <= |data| && (pos < |data| ==> pos == size * |cs|)
        invariant ChunkCount(|data|, size) == |cs| + ChunkCount(|data| - pos, size)
        invariant boot.Geometry() ==> Storing(boot, d, device.sectors, cs, data)
        invariant current == LastOf(cs) && first == (if cs == [] then None else Some(cs[0]))
      {
        AfterChunk(data, pos, size, |cs|);
        var chunk := ChunkAt(data, pos, size);
        var c := StoreNext(current, data, pos, d, cs);
        if !c.Ok? { return c, cs; }
        if first.None? { first := Some(c.value); }
        current := Some(c.value);
        cs := cs + [c.value];
        pos := pos + |chunk|;
      }
      return Ok(if first.None? then 0 else first.value), cs;
    }

    method CreateFile(dir: u32, name: seq<u8>, data: seq<u8>) returns (r: Result<()>, ghost x: Creation)
      modifies device
      ensures x.dir == dir && x.name == name && x.data == data && x.result == r
      ensures x.before == old(device.sectors) && x.after == device.sectors
      ensures RecordMade(x)
      ensures boot.Geometry() ==> Created(boot, x)
      ensures boot.sectorsPerCluster == 0 && |name| <= MAX_NAME ==>
                r.Panic? && device.sectors == old(device.sectors)
    {
      ghost var d := device.sectors;
      ghost var size := |data| % U32_LIMIT;
      if |name| > MAX_NAME {
        r := Err(NameTooLong);
        x := Creation(dir, name, data, d, d, d, [], NewRecord(name, 0, size), r);
        return;
      }
      if boot.sectorsPerCluster == 0 {
        x := Creation(dir, name, data, d, d, d, [], NewRecord(name, 0, size), Panic);
        return Panic, x;
      }
      var first, cs := StoreData(data);
      ghost var stored := device.sectors;
      if boot.Geometry() {
        FreeCount(boot, d, stored, cs);
      }
      if !first.Ok? {
        r := if first.Panic? then Panic else Err(first.error);
        x := Creation(dir, name, data, d, stored, stored, cs, NewRecord(name, FirstOr0(cs), size), r);
        return;
      }
      var rec := CreateDirEntry(name, first.value, |data| % U32_LIMIT);
      r := WriteDirEntry(dir, rec);
      x := Creation(dir, name, data, d, stored, device.sectors, cs, NewRecord(name, FirstOr0(cs), size), r);
    }

    /** Stores `rec` in the first unused record of a cluster, if there is one. */
    method WriteInCluster(c: u32, rec: seq<u8>) returns (r: Result<bool>)
      requires |rec| == RECORD_SIZE
      modifies device
      ensures var at, n := boot.ClusterToSector(c), boot.sectorsPerCluster;
              match r
              case Ok(true) => c >= 2 && exists j, lba ::
                StoredInRun(old(device.sectors), device.sectors, at, n, rec, j, lba)
              case Ok(false) => device.sectors == old(device.sectors)
                                && NoneUnused(SectorBytes(device.sectors, at, n))
              case Panic => device.sectors == old(device.sectors) && !boot.Fits(c)
              case Err(_) => false
    {
      var base := LocateCluster(c);
      if base.Panic? { return Panic; }
      r := WriteInSectors(base.value, boot.sectorsPerCluster, rec);
    }
  }

  /** Some rounds of the data loop have stored data in the lowest free clusters `cs`. */
  ghost predicate Storing(b: BootSector, d: Disk, d': Disk, cs: seq<u32>, data: seq<u8>) {
    LowestFree(b, d, cs) && d' == AfterStoring(b, d, cs, data) && LaidOut(b, d, d', cs, data)
  }

  lemma StoringNothing(b: BootSector, d: Disk, data: seq<u8>)
    ensures Storing(b, d, d, [], data)
  {
    NothingLaidOut(b, d, data);
  }

  /** One round of the loop of `StoreData`. */
  lemma StoredOneMore(b: BootSector, d: Disk, d0: Disk, cs: seq<u32>, c: u32, data: seq<u8>, pos: nat, s: Sector)
    requires b.Geometry() && Storing(b, d, d0, cs, data) && FirstFree(b, d0, c)
    requires pos == ClusterSize(b) * |cs| && pos <= |data|
    requires var chunk := ChunkAt(data, pos, ClusterSize(b));
             forall k :: 0 <= k < SECTOR_SIZE ==> s[k] == if k < |chunk| then chunk[k] else 0
    ensures Storing(b, d, StoreOne(b, d0, LastOf(cs), c, s), cs + [c], data)
  {
    assert s == FirstSector(b, data, |cs|) by {
      ChunkFillsSector(b, data, |cs|, pos, ChunkAt(data, pos, ClusterSize(b)), s);
    }
    StoringNext(b, d, d0, cs, c, data);
    AfterStoringOne(b, d, cs, c, data);
    StoringLaysOut(b, d, cs + [c], data);
  }

  lemma StoringNext(b: BootSector, d: Disk, d0: Disk, cs: seq<u32>, c: u32, data: seq<u8>)
    requires b.Geometry() && Storing(b, d, d0, cs, data) && FirstFree(b, d0, c)
    ensures LowestFree(b, d, cs + [c])
  {
    NextFree(b, d, d0, cs, c);
    ExtendLowest(b, d, cs, c);
  }

  lemma AfterStoringOne(b: BootSector, d: Disk, cs: seq<u32>, c: u32, data: seq<u8>)
    ensures AfterStoring(b, d, cs + [c], data)
            == StoreOne(b, AfterStoring(b, d, cs, data), LastOf(cs), c, FirstSector(b, data, |cs|))
  {
    assert (cs + [c])[..|cs|] == cs;
  }

  lemma ListNextRecord(sector: Sector, i: nat, rec: seq<u8>)
    requires i < 16 && rec == sector[RECORD_SIZE * i..RECORD_SIZE * (i + 1)]
    ensures Listing(sector[..RECORD_SIZE * (i + 1)])
         == Listing(sector[..RECORD_SIZE * i]) + if Unused(rec[0]) then [] else [ParseRecord(rec)]
  {
    var front := sector[..RECORD_SIZE * i];
    assert front + rec == sector[..RECORD_SIZE * (i + 1)];
    ListingAppend(front, rec);
    ListOne(rec);
  }

  lemma ListNextSector(d: Disk, first: int, n: nat)
    ensures Listing(SectorBytes(d, first, n + 1)) == Listing(SectorBytes(d, first, n)) + Listing(At(d, first + n))
  {
    WholeRecords(0, n);
    ListingAppend(SectorBytes(d, first, n), At(d, first + n));
  }

  lemma ListNextCluster(b: BootSector, d: Disk, cs: seq<u32>, i: nat)
    requires i < |cs|
    ensures Listing(Content(b, d, cs[..i + 1]))
         == Listing(Content(b, d, cs[..i]))
            + Listing(SectorBytes(d, b.ClusterToSector(cs[i]), b.sectorsPerCluster))
  {
    ContentRecords(b, d, cs[..i]);
    ListingAppend(Content(b, d, cs[..i]), SectorBytes(d, b.ClusterToSector(cs[i]), b.sectorsPerCluster));
    ContentNext(b, d, cs, i);
  }

  ghost predicate NoneFreeBelow(b: BootSector, d: Disk, n: nat) {
    forall k: u32 :: b.InRange(k) && k < n ==> b.Entry(d, k) != 0
  }

  /** The four bytes at `offset` of FAT sector number `idx` are entry `idx * 128 + offset / 4`. */
  lemma FreeStep(b: BootSector, d: Disk, idx: nat, offset: nat)
    requires offset < SECTOR_SIZE && offset % 4 == 0
    requires NoneFreeBelow(b, d, idx * 128 + offset / 4)
    ensures var k, value := idx * 128 + offset / 4, Get32(At(d, b.FatStart() + idx), offset);
            && k == (idx * 512 + offset) / 4
            && (k < U32_LIMIT ==> b.Entry(d, k) == value)
            && (value != 0 || k < 2 ==> NoneFreeBelow(b, d, k + 1))
  {
    var k := idx * 128 + offset / 4;
    if k < U32_LIMIT {
      assert b.FatSector(k) == b.FatStart() + idx;
      assert EntryOffset(k) == offset;
    }
  }

  lemma FreeFound(b: BootSector, d: Disk, idx: nat, offset: nat, c: u32)
    requires idx < b.sectorsPerFat && offset < SECTOR_SIZE && offset % 4 == 0
    requires NoneFreeBelow(b, d, idx * 128 + offset / 4)
    requires Get32(At(d, b.FatStart() + idx), offset) == 0 && c == (idx * 512 + offset) / 4 && c >= 2
    ensures FirstFree(b, d, c)
  {
    FreeStep(b, d, idx, offset);
  }

  lemma NotFree(b: BootSector, d: Disk, idx: nat, offset: nat)
    requires offset < SECTOR_SIZE && offset % 4 == 0
    requires NoneFreeBelow(b, d, idx * 128 + offset / 4)
    requires Get32(At(d, b.FatStart() + idx), offset) != 0 || (idx * 512 + offset) / 4 < 2
    ensures NoneFreeBelow(b, d, idx * 128 + (offset + 4) / 4)
  {
    FreeStep(b, d, idx, offset);
    assert (offset + 4) / 4 == offset / 4 + 1;
  }

  lemma LocatedIsNat(b: BootSector, c: u32)
    requires c >= 2
    ensures b.ClusterToSector(c) >= 0
  {
    BehindFats(b, c);
    Distribute(b.numFats, b.sectorsPerFat);
  }
}
