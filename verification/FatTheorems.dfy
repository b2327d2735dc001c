/** What `create_file` promises about other files, the directory and the FAT copies. */
module FatTheorems {
  import opened Common
  import opened Bytes
  import opened BlockDevice
  import opened FatLayout
  import opened FatChain
  import opened FatContent
  import opened FatAlloc
  import opened Directory
  import opened FatFiles

  // ---------- The two phases of create_file ----------

  /** Newly taken clusters belong to no chain. */
  lemma NewClustersApart(b: BootSector, d: Disk, cs: seq<u32>, start: u32, p: seq<u32>)
    requires LowestFree(b, d, cs) && ChainAt(b, d, start, p)
    ensures Apart(p, cs)
  {
    forall c | c in p ensures c !in cs {
      ChainInUse(b, d, start, p, c);
    }
  }

  /** Two chains that share no cluster. */
  ghost predicate Apart(p: seq<u32>, q: seq<u32>) {
    forall c :: c in p ==> c !in q
  }

  /** Storing data writes to no sector of another chain. */
  lemma DataPhaseSectors(b: BootSector, d: Disk, mid: Disk, cs: seq<u32>, data: seq<u8>, p: seq<u32>, lba: int)
    requires b.Geometry() && LaidOut(b, d, mid, cs, data) && Apart(p, cs) && (forall c :: c in p ==> b.InRange(c))
    requires Occupies(b, p, lba)
    ensures At(mid, lba) == At(d, lba)
  {
    var c :| c in p && b.ClusterToSector(c) <= lba < b.ClusterToSector(c) + b.sectorsPerCluster;
    InRangeFits(b, c);
    forall i | 0 <= i < |cs| ensures lba != b.ClusterToSector(cs[i]) {
      if lba == b.ClusterToSector(cs[i]) {
        ClustersDisjoint(b, c, lba - b.ClusterToSector(c), cs[i], 0);
        assert false;
      }
    }
  }

  /** Storing data keeps every chain and its bytes. */
  lemma DataPhaseKeeps(b: BootSector, d: Disk, mid: Disk, cs: seq<u32>, data: seq<u8>, start: u32, p: seq<u32>)
    requires b.Geometry() && LaidOut(b, d, mid, cs, data) && ChainAt(b, d, start, p)
    ensures ChainAt(b, mid, start, p) && ChainOf(b, mid, start) == ChainOf(b, d, start)
    ensures Content(b, mid, p) == Content(b, d, p) && Apart(p, cs)
  {
    NewClustersApart(b, d, cs, start, p);
    ChainFrame(b, d, mid, start, p);
    forall lba | Occupies(b, p, lba) ensures At(mid, lba) == At(d, lba) {
      DataPhaseSectors(b, d, mid, cs, data, p, lba);
    }
    ContentFrame(b, d, mid, p);
  }

  /** Following the directory `dir` on `d` leads to no cluster of `p`. */
  ghost predicate Avoids(b: BootSector, d: Disk, dir: u32, p: seq<u32>) {
    ChainOf(b, d, dir).Ok? ==> Apart(ChainOf(b, d, dir).value, p)
  }

  /** Writing the record keeps every chain, and the bytes of those apart from the directory. */
  lemma DirPhaseKeeps(b: BootSector, mid: Disk, d': Disk, dir: u32, rec: seq<u8>, r: Result<()>,
                      start: u32, p: seq<u32>)
    requires b.Geometry() && ChainAt(b, mid, start, p)
    requires |rec| == RECORD_SIZE && DirEntryWritten(b, mid, d', dir, rec, r)
    ensures ChainAt(b, d', start, p) && ChainOf(b, d', start) == ChainOf(b, mid, start)
    ensures Avoids(b, mid, dir, p) ==> Content(b, d', p) == Content(b, mid, p)
  {
    if d' != mid {
      var cs := ChainOf(b, mid, dir).value;
      var j, lba :| RecordStored(b, mid, d', cs, rec, j, lba);
      SectorWriteKeeps(b, mid, d', cs, lba, start, p);
    }
  }

  lemma SectorWriteKeeps(b: BootSector, d: Disk, d': Disk, cs: seq<u32>, lba: int, start: u32, p: seq<u32>)
    requires b.Geometry() && ChainAt(b, d, start, p)
    requires Occupies(b, cs, lba) && lba >= b.DataStart() && OnlyAt(d, d', lba)
    ensures ChainAt(b, d', start, p) && ChainOf(b, d', start) == ChainOf(b, d, start)
    ensures Apart(cs, p) ==> Content(b, d', p) == Content(b, d, p)
  {
    DataWriteKeepsFat(b, d, d', lba);
    ChainFrame(b, d, d', start, p);
    if Apart(cs, p) {
      var c :| c in cs && b.ClusterToSector(c) <= lba < b.ClusterToSector(c) + b.sectorsPerCluster;
      OtherClusters(b, d, d', p, c, lba);
    }
  }

  lemma SoundFits(b: BootSector, d: Disk, start: u32)
    requires b.Geometry() && SoundChain(b, d, start)
    ensures forall c :: c in ChainOf(b, d, start).value ==> b.Fits(c)
  {
    forall c | c in ChainOf(b, d, start).value ensures b.Fits(c) {
      InRangeFits(b, c);
    }
  }

  lemma SoundContent(b: BootSector, d: Disk, start: u32)
    requires b.Geometry() && SoundChain(b, d, start)
    ensures ChainContent(b, d, start) == Ok(Content(b, d, ChainOf(b, d, start).value))
  {
    SoundFits(b, d, start);
  }

  lemma SameContent(b: BootSector, d: Disk, d': Disk, start: u32, p: seq<u32>)
    requires ChainOf(b, d', start) == ChainOf(b, d, start)
    requires ChainOf(b, d, start).Ok? ==> ChainOf(b, d, start).value == p
    requires Content(b, d', p) == Content(b, d, p)
    ensures DirListing(b, d', start) == DirListing(b, d, start)
    ensures forall e: DirEntry :: e.firstCluster == start ==> FileBytes(b, d', e) == FileBytes(b, d, e)
  {
    SameChainContent(b, d, d', start, p);
  }

  lemma SameChainContent(b: BootSector, d: Disk, d': Disk, start: u32, p: seq<u32>)
    requires ChainOf(b, d', start) == ChainOf(b, d, start)
    requires ChainOf(b, d, start).Ok? ==> ChainOf(b, d, start).value == p
    requires Content(b, d', p) == Content(b, d, p)
    ensures ChainContent(b, d', start) == ChainContent(b, d, start)
  {
  }

  /** What the data phase of a call leaves. */
  lemma CreatedLaysOut(b: BootSector, x: Creation)
    requires b.Geometry() && |x.record| == RECORD_SIZE && Created(b, x) && |x.name| <= MAX_NAME
    ensures LaidOut(b, x.before, x.stored, x.clusters, x.data)
  {
    StoringLaysOut(b, x.before, x.clusters, x.data);
  }

  /**
   Whatever `create_file` returns and whatever number it is given for the directory, every chain of
   data clusters keeps its clusters, however long it is. It lists and reads the same too unless the
   directory, followed once the data is stored, leads into it.
   */
  lemma NonInterference(b: BootSector, x: Creation, start: u32, p: seq<u32>)
    requires b.Geometry() && ChainAt(b, x.before, start, p)
    requires |x.record| == RECORD_SIZE && Created(b, x)
    ensures ChainAt(b, x.after, start, p) && ChainOf(b, x.after, start) == ChainOf(b, x.before, start)
    ensures Apart(p, x.clusters)
    ensures Avoids(b, x.stored, x.dir, p) ==>
              && DirListing(b, x.after, start) == DirListing(b, x.before, start)
              && forall e: DirEntry :: e.firstCluster == start ==>
                   FileBytes(b, x.after, e) == FileBytes(b, x.before, e)
  {
    if |x.name| <= MAX_NAME {
      CreatedLaysOut(b, x);
      DataPhaseKeeps(b, x.before, x.stored, x.clusters, x.data, start, p);
      if Needed(b, x.data) <= |FreeSet(b, x.before)| {
        DirPhaseKeeps(b, x.stored, x.after, x.dir, x.record, x.result, start, p);
      }
      if Avoids(b, x.stored, x.dir, p) {
        FollowKnown(b, x.before, start, p);
        SameContent(b, x.before, x.after, start, p);
      }
    }
  }

  /** No path from `dir` on `d` leaves the table or meets a cluster of `p`. */
  ghost predicate LeadsElsewhere(b: BootSector, d: Disk, dir: u32, p: seq<u32>) {
    forall q :: IsPath(b, d, dir, q) ==> q[|q| - 1] < b.Entries() && q[|q| - 1] !in p
  }

  /**
   The condition in `NonInterference`, judged before the call: storing the data leads no directory
   into another chain, not even one that is cyclic or runs through free clusters.
   */
  lemma StaysAway(b: BootSector, x: Creation, start: u32, p: seq<u32>)
    requires b.Geometry() && ChainAt(b, x.before, start, p) && LeadsElsewhere(b, x.before, x.dir, p)
    requires |x.record| == RECORD_SIZE && Created(b, x)
    ensures Avoids(b, x.stored, x.dir, p)
  {
    if ChainOf(b, x.stored, x.dir).Ok? {
      var q := ChainOf(b, x.stored, x.dir).value;
      NonInterference(b, x, start, p);
      CreatedLinks(b, x);
      ChainOfIff(b, x.stored, x.dir, q);
      LinkedStaysAway(b, x.before, x.stored, x.clusters, x.dir, p, q);
    }
  }

  lemma CreatedLinks(b: BootSector, x: Creation)
    requires b.Geometry() && |x.record| == RECORD_SIZE && Created(b, x)
    ensures Linked(b, x.before, x.stored, x.clusters)
  {
    if |x.name| <= MAX_NAME {
      CreatedLaysOut(b, x);
    }
  }

  lemma LinkedStaysAway(b: BootSector, d: Disk, d': Disk, cs: seq<u32>, dir: u32, p: seq<u32>, q: seq<u32>)
    requires Linked(b, d, d', cs) && LeadsElsewhere(b, d, dir, p) && Apart(p, cs) && IsPath(b, d', dir, q)
    ensures Apart(q, p)
  {
    forall c | c in q ensures c !in p {
      var i :| 0 <= i < |q| && q[i] == c;
      PathPrefix(b, d', dir, q, i + 1);
      OldOrNew(b, d, d', cs, dir, p, q[..i + 1]);
    }
  }

  /** A path ends in one of the newly linked clusters, or it was a path before. */
  lemma {:induction false} OldOrNew(b: BootSector, d: Disk, d': Disk, cs: seq<u32>, dir: u32, p: seq<u32>, q: seq<u32>)
    requires Linked(b, d, d', cs) && LeadsElsewhere(b, d, dir, p) && Apart(p, cs) && IsPath(b, d', dir, q)
    ensures EndsAway(b, d, cs, dir, p, q)
    decreases |q|
  {
    if |q| == 1 {
      PathAway(b, d, dir, p, q);
    } else {
      var init, next := q[..|q| - 1], q[|q| - 1];
      PathInit(b, d', dir, q);
      OldOrNew(b, d, d', cs, dir, p, init);
      StepAway(b, d, d', cs, dir, p, init, next);
      assert q == init + [next];
    }
  }

  ghost predicate EndsAway(b: BootSector, d: Disk, cs: seq<u32>, dir: u32, p: seq<u32>, q: seq<u32>)
    requires q != []
  {
    var last := q[|q| - 1];
    last !in p && (last in cs || IsPath(b, d, dir, q))
  }

  lemma StepAway(b: BootSector, d: Disk, d': Disk, cs: seq<u32>, dir: u32, p: seq<u32>, q: seq<u32>, next: u32)
    requires Linked(b, d, d', cs) && LeadsElsewhere(b, d, dir, p) && Apart(p, cs)
    requires q != [] && EndsAway(b, d, cs, dir, p, q)
    requires b.Entry(d', q[|q| - 1]) == next && next < END_OF_CHAIN
    ensures EndsAway(b, d, cs, dir, p, q + [next])
  {
    if q[|q| - 1] in cs {
      NewLeadsToNew(b, d, d', cs, q[|q| - 1]);
    } else {
      OldStep(b, d, d', cs, dir, q, p, next);
    }
  }

  lemma PathAway(b: BootSector, d: Disk, dir: u32, p: seq<u32>, q: seq<u32>)
    requires LeadsElsewhere(b, d, dir, p) && IsPath(b, d, dir, q)
    ensures q[|q| - 1] < b.Entries() && q[|q| - 1] !in p
  {
  }

  lemma NewLeadsToNew(b: BootSector, d: Disk, d': Disk, cs: seq<u32>, c: u32)
    requires Linked(b, d, d', cs) && c in cs && b.Entry(d', c) < END_OF_CHAIN
    ensures b.Entry(d', c) in cs
  {
    var k :| 0 <= k < |cs| && cs[k] == c;
    assert b.Entry(d', cs[k]) == LinkAfter(cs, k);
  }

  lemma OldStep(b: BootSector, d: Disk, d': Disk, cs: seq<u32>, dir: u32, q: seq<u32>, p: seq<u32>, next: u32)
    requires Linked(b, d, d', cs) && LeadsElsewhere(b, d, dir, p) && IsPath(b, d, dir, q)
    requires q[|q| - 1] !in cs && b.Entry(d', q[|q| - 1]) == next && next < END_OF_CHAIN
    ensures IsPath(b, d, dir, q + [next]) && next !in p
  {
    PathAway(b, d, dir, p, q);
    PathExtends(b, d, dir, q);
    PathAway(b, d, dir, p, q + [next]);
  }

  /** The data phase keeps the directory that the record will go to. */
  lemma DirKept(b: BootSector, x: Creation)
    requires b.Geometry() && SoundChain(b, x.before, x.dir)
    requires |x.record| == RECORD_SIZE && Created(b, x) && |x.name| <= MAX_NAME
    ensures LaidOut(b, x.before, x.stored, x.clusters, x.data)
    ensures SoundChain(b, x.stored, x.dir) && ChainOf(b, x.stored, x.dir) == ChainOf(b, x.before, x.dir)
    ensures var cs := ChainOf(b, x.before, x.dir).value;
            Content(b, x.stored, cs) == Content(b, x.before, cs) && Apart(cs, x.clusters)
  {
    var cs := ChainOf(b, x.before, x.dir).value;
    SoundIff(b, x.before, x.dir, cs);
    CreatedLaysOut(b, x);
    DataPhaseKeeps(b, x.before, x.stored, x.clusters, x.data, x.dir, cs);
  }

  // ---------- The directory ----------

  /** Whether the directory has room, judged before the call. */
  ghost predicate HasRoom(b: BootSector, d: Disk, dir: u32)
    requires ChainOf(b, d, dir).Ok?
  {
    !NoneUnused(Content(b, d, ChainOf(b, d, dir).value))
  }

  /** `create_file` succeeds exactly when the name fits, enough clusters are free and the directory has room. */
  lemma CreateSucceedsIff(b: BootSector, x: Creation)
    requires b.Geometry() && SoundChain(b, x.before, x.dir)
    requires |x.record| == RECORD_SIZE && Created(b, x)
    ensures if |x.name| > 12 then x.result == Err(NameTooLong)
            else if Needed(b, x.data) > |FreeSet(b, x.before)| then x.result == Err(NoFreeClusters)
            else if !HasRoom(b, x.before, x.dir) then x.result == Err(NoFreeDirEntries)
            else x.result.Ok?
    ensures |x.name| > 12 ==> x.after == x.before
  {
    if |x.name| <= MAX_NAME && Needed(b, x.data) <= |FreeSet(b, x.before)| {
      DirKept(b, x);
      WriteSucceedsIff(b, x.stored, x.after, x.dir, x.record, x.result);
    }
  }

  lemma AddedHadRoom(b: BootSector, d: Disk, d': Disk, cs: seq<u32>, rec: seq<u8>, r: Result<()>)
    requires |rec| == RECORD_SIZE && RecordAdded(b, d, d', cs, rec, r) && r.Ok?
    ensures !NoneUnused(Content(b, d, cs))
  {
    var j, lba :| RecordStored(b, d, d', cs, rec, j, lba);
    ReplacedHadRoom(Content(b, d, cs), Content(b, d', cs), j, rec);
  }

  lemma WriteSucceedsIff(b: BootSector, d: Disk, d': Disk, dir: u32, rec: seq<u8>, r: Result<()>)
    requires b.Geometry() && SoundChain(b, d, dir)
    requires |rec| == RECORD_SIZE && DirEntryWritten(b, d, d', dir, rec, r)
    ensures if HasRoom(b, d, dir) then r.Ok? else r == Err(NoFreeDirEntries)
  {
    var cs := ChainOf(b, d, dir).value;
    if r.Panic? {
      SoundFits(b, d, dir);
      assert false;
    } else if r.Ok? {
      AddedHadRoom(b, d, d', cs, rec, r);
    }
  }

  /** The listing after `write_dir_entry`: the new entry at one place, if its name is one that is listed. */
  lemma DirectoryInsert(b: BootSector, d: Disk, d': Disk, dir: u32, rec: seq<u8>, r: Result<()>)
    requires b.Geometry() && SoundChain(b, d, dir)
    requires |rec| == RECORD_SIZE && DirEntryWritten(b, d, d', dir, rec, r)
    ensures DirListing(b, d, dir).Ok? && DirListing(b, d', dir).Ok?
    ensures Inserted(DirListing(b, d, dir).value, DirListing(b, d', dir).value, rec, r.Ok? && !Unused(rec[0]))
  {
    var cs := ChainOf(b, d, dir).value;
    SoundContent(b, d, dir);
    SoundIff(b, d, dir, cs);
    DirPhaseKeeps(b, d, d', dir, rec, r, dir, cs);
    SoundContent(b, d', dir);
    if r.Ok? {
      var j, lba :| RecordStored(b, d, d', cs, rec, j, lba);
      ListingInsert(Content(b, d, cs), Content(b, d', cs), j, rec);
    }
  }

  /** `new'` is `old'` with the entry of `rec` inserted at one position, if `present`. */
  ghost predicate Inserted(old': seq<DirEntry>, new': seq<DirEntry>, rec: seq<u8>, present: bool)
    requires |rec| == RECORD_SIZE
  {
    if present then exists j :: 0 <= j <= |old'| && new' == old'[..j] + [ParseRecord(rec)] + old'[j..]
    else new' == old'
  }

  /** The listing of the directory after `create_file`; after an error it is unchanged. */
  lemma CreateListing(b: BootSector, x: Creation)
    requires b.Geometry() && SoundChain(b, x.before, x.dir)
    requires |x.record| == RECORD_SIZE && Created(b, x)
    ensures DirListing(b, x.before, x.dir).Ok? && DirListing(b, x.after, x.dir).Ok?
    ensures Inserted(DirListing(b, x.before, x.dir).value, DirListing(b, x.after, x.dir).value,
                     x.record, x.result.Ok? && !Unused(x.record[0]))
  {
    SoundContent(b, x.before, x.dir);
    if |x.name| <= MAX_NAME {
      DirKept(b, x);
      SameContent(b, x.before, x.stored, x.dir, ChainOf(b, x.before, x.dir).value);
      if Needed(b, x.data) <= |FreeSet(b, x.before)| {
        DirectoryInsert(b, x.stored, x.after, x.dir, x.record, x.result);
      }
    }
  }

  /** After an error the only trace outside the FATs is in the first sectors of the clusters that were taken. */
  lemma ErrorResidue(b: BootSector, x: Creation, lba: int)
    requires b.Geometry()
    requires |x.record| == RECORD_SIZE && Created(b, x) && !x.result.Ok?
    requires lba < b.FatStart() || lba >= b.DataStart()
    requires forall i :: 0 <= i < |x.clusters| ==> lba != b.ClusterToSector(x.clusters[i])
    ensures At(x.after, lba) == At(x.before, lba)
  {
    if |x.name| <= MAX_NAME {
      CreatedLaysOut(b, x);
      assert x.after == x.stored;
    }
  }

  // ---------- The allocation table ----------

  /** Whatever the directory, the table gains exactly the chain of the lowest free clusters. */
  lemma CreateTable(b: BootSector, x: Creation)
    requires b.Geometry()
    requires |x.record| == RECORD_SIZE && Created(b, x) && |x.name| <= MAX_NAME
    ensures LowestFree(b, x.before, x.clusters) && Linked(b, x.before, x.after, x.clusters)
    ensures |x.clusters| ==
            if Needed(b, x.data) <= |FreeSet(b, x.before)| then Needed(b, x.data) else |FreeSet(b, x.before)|
    ensures b.numFats >= 2 && b.Mirrored(x.before) ==> b.Mirrored(x.after)
  {
    CreatedLaysOut(b, x);
    if b.numFats >= 2 && b.Mirrored(x.before) {
      StoringMirrors(b, x.before, x.clusters, x.data);
    }
    if x.after != x.stored {
      DirPhaseTable(b, x.stored, x.after, x.dir, x.record, x.result);
      LinkedFrame(b, x.before, x.stored, x.after, x.clusters);
    }
  }

  lemma DirPhaseTable(b: BootSector, d: Disk, d': Disk, dir: u32, rec: seq<u8>, r: Result<()>)
    requires b.Geometry()
    requires |rec| == RECORD_SIZE && DirEntryWritten(b, d, d', dir, rec, r) && d' != d
    ensures forall k: u32 :: k < b.Entries() ==> b.Entry(d', k) == b.Entry(d, k)
    ensures b.numFats >= 2 && b.Mirrored(d) ==> b.Mirrored(d')
  {
    var cs := ChainOf(b, d, dir).value;
    var j, lba :| RecordStored(b, d, d', cs, rec, j, lba);
    DataWriteKeepsFat(b, d, d', lba);
  }

  /** One operation that writes the table: `set_fat_entry`, `allocate_cluster` or `create_file`. */
  ghost predicate TableStep(b: BootSector, d: Disk, d': Disk) {
    || (exists c: u32, v: u32 :: c < b.Entries() && d' == StoreEntry(b, d, c, v))
    || (exists prev: Option<u32>, c: u32, v: u32 :: AllocationStep(b, d, d', prev, c, v))
    || (exists x: Creation :: CreationStep(b, x) && x.before == d && x.after == d')
  }

  /** `allocate_cluster` links the first free cluster behind `prev`, any cluster with a table entry. */
  ghost predicate AllocationStep(b: BootSector, d: Disk, d': Disk, prev: Option<u32>, c: u32, v: u32) {
    && FirstFree(b, d, c) && (prev.Some? ==> prev.value < b.Entries())
    && d' == LinkFree(b, d, prev, c, v)
  }

  ghost predicate CreationStep(b: BootSector, x: Creation) {
    |x.record| == RECORD_SIZE && Created(b, x)
  }

  /** The two FAT copies stay equal over every run of table-writing operations. */
  lemma {:induction false} MirrorOverRuns(b: BootSector, run: seq<Disk>)
    requires b.Geometry() && b.numFats >= 2
    requires |run| > 0 && b.Mirrored(run[0])
    requires forall i :: 0 <= i < |run| - 1 ==> TableStep(b, run[i], run[i + 1])
    ensures b.Mirrored(run[|run| - 1])
  {
    if |run| > 1 {
      MirrorOverRuns(b, run[..|run| - 1]);
      MirrorStep(b, run[|run| - 2], run[|run| - 1]);
    }
  }

  lemma MirrorStep(b: BootSector, d: Disk, d': Disk)
    requires b.Geometry() && b.numFats >= 2 && b.Mirrored(d) && TableStep(b, d, d')
    ensures b.Mirrored(d')
  {
    if c: u32, v: u32 :| c < b.Entries() && d' == StoreEntry(b, d, c, v) {
      StoreEntryRefines(b, d, c, v);
    } else if prev: Option<u32>, c: u32, v: u32 :| AllocationStep(b, d, d', prev, c, v) {
      LinkFreeRefines(b, d, prev, c, v);
    } else if x: Creation :| CreationStep(b, x) && x.before == d && x.after == d' {
      if |x.name| <= MAX_NAME {
        CreateTable(b, x);
      }
    }
  }
}
