/** Runs of `create_file` calls: what every file and directory keeps to the end. */
module FatRuns {
  import opened Bytes
  import opened BlockDevice
  import opened FatLayout
  import opened FatChain
  import opened FatContent
  import opened FatAlloc
  import opened Directory
  import opened FatFiles
  import opened FatTheorems
  import opened FatRoundTrip

  /** One call of `create_file`, with any directory number and any result. */
  ghost predicate Call(b: BootSector, x: Creation) {
    |x.record| == RECORD_SIZE && Created(b, x)
  }

  /** A run of calls, each on the disk that the previous one left, starting on `d`. */
  ghost predicate Run(b: BootSector, d: Disk, xs: seq<Creation>)
    decreases |xs|
  {
    xs != [] ==> Call(b, xs[0]) && xs[0].before == d && Run(b, xs[0].after, xs[1..])
  }

  /** The disk at the end of a run. */
  ghost function End(d: Disk, xs: seq<Creation>): Disk
    decreases |xs|
  {
    if xs == [] then d else End(xs[0].after, xs[1..])
  }

  // ---------- Clusters, for calls in any directories ----------

  /** The clusters that a call took are a chain, whatever the call returned. */
  lemma Taken(b: BootSector, x: Creation)
    requires b.Geometry() && Call(b, x) && x.clusters != []
    ensures ChainAt(b, x.after, x.clusters[0], x.clusters)
  {
    CreateTable(b, x);
    NewChain(b, x.before, x.after, x.clusters);
  }

  lemma ChainTail(b: BootSector, d: Disk, xs: seq<Creation>, start: u32, p: seq<u32>)
    requires b.Geometry() && Run(b, d, xs) && xs != [] && ChainAt(b, d, start, p)
    ensures Run(b, xs[0].after, xs[1..])
    ensures ChainAt(b, xs[0].after, start, p) && Apart(p, xs[0].clusters)
  {
    NonInterference(b, xs[0], start, p);
  }

  /** Every run keeps every chain. */
  lemma {:induction false} ChainsOverRuns(b: BootSector, d: Disk, xs: seq<Creation>, start: u32, p: seq<u32>)
    requires b.Geometry() && Run(b, d, xs) && ChainAt(b, d, start, p)
    ensures ChainAt(b, End(d, xs), start, p)
    decreases |xs|
  {
    if xs != [] {
      ChainTail(b, d, xs, start, p);
      ChainsOverRuns(b, xs[0].after, xs[1..], start, p);
    }
  }

  /** No call takes a cluster of a chain. */
  lemma {:induction false} ChainNotTaken(b: BootSector, d: Disk, xs: seq<Creation>, j: nat,
                                         start: u32, p: seq<u32>, c: u32)
    requires b.Geometry() && Run(b, d, xs) && j < |xs| && ChainAt(b, d, start, p) && c in p
    ensures c !in xs[j].clusters
    decreases j
  {
    ChainTail(b, d, xs, start, p);
    if j > 0 {
      ChainNotTaken(b, xs[0].after, xs[1..], j - 1, start, p, c);
    }
  }

  lemma FirstTakenOnce(b: BootSector, d: Disk, xs: seq<Creation>, j: nat, c: u32)
    requires b.Geometry() && Run(b, d, xs) && 0 < j < |xs| && c in xs[0].clusters
    ensures c !in xs[j].clusters
  {
    var x, later := xs[0], xs[1..];
    Taken(b, x);
    ChainNotTaken(b, x.after, later, j - 1, x.clusters[0], x.clusters, c);
  }

  /** No cluster is taken by two calls of a run, whatever directories they were given and whatever they returned. */
  lemma {:induction false} ClustersTakenOnce(b: BootSector, d: Disk, xs: seq<Creation>, i: nat, j: nat, c: u32)
    requires b.Geometry() && Run(b, d, xs) && i < j < |xs| && c in xs[i].clusters
    ensures c !in xs[j].clusters
    decreases i
  {
    if i == 0 {
      FirstTakenOnce(b, d, xs, j, c);
    } else {
      ClustersTakenOnce(b, xs[0].after, xs[1..], i - 1, j - 1, c);
    }
  }

  // ---------- Directories ----------

  /** Directories, by their first cluster, and the clusters each of them is made of. */
  type Directories = map<u32, seq<u32>>

  /** No two of them share a cluster. */
  ghost predicate Separate(dirs: Directories) {
    forall a, c :: a in dirs && c in dirs && a != c ==> Apart(dirs[a], dirs[c])
  }

  ghost predicate DirAt(b: BootSector, d: Disk, a: u32, cs: seq<u32>) {
    ChainAt(b, d, a, cs) && |cs| <= MAX_ITERATIONS
  }

  /** Each of them is a sound directory on `d`. */
  ghost predicate InPlace(b: BootSector, d: Disk, dirs: Directories) {
    forall a :: a in dirs ==> DirAt(b, d, a, dirs[a])
  }

  /** Every call of the run is in one of the directories. */
  ghost predicate InDirs(dirs: Directories, xs: seq<Creation>) {
    xs != [] ==> xs[0].dir in dirs && InDirs(dirs, xs[1..])
  }

  /** The chain `p` shares no cluster with any of the directories. */
  ghost predicate Outside(dirs: Directories, p: seq<u32>) {
    forall a :: a in dirs ==> Apart(dirs[a], p)
  }

  lemma DirsStep(b: BootSector, dirs: Directories, x: Creation)
    requires b.Geometry() && InPlace(b, x.before, dirs) && Call(b, x)
    ensures InPlace(b, x.after, dirs)
  {
    forall a | a in dirs ensures DirAt(b, x.after, a, dirs[a]) {
      NonInterference(b, x, a, dirs[a]);
    }
  }

  lemma DirsTail(b: BootSector, dirs: Directories, d: Disk, xs: seq<Creation>)
    requires b.Geometry() && InPlace(b, d, dirs) && Run(b, d, xs) && xs != []
    ensures InPlace(b, xs[0].after, dirs) && Run(b, xs[0].after, xs[1..])
  {
    DirsStep(b, dirs, xs[0]);
  }

  /** Directories keep their clusters over every run, in whatever directories its calls are. */
  lemma {:induction false} DirsOverRuns(b: BootSector, dirs: Directories, d: Disk, xs: seq<Creation>)
    requires b.Geometry() && InPlace(b, d, dirs) && Run(b, d, xs)
    ensures InPlace(b, End(d, xs), dirs)
    decreases |xs|
  {
    if xs != [] {
      DirsTail(b, dirs, d, xs);
      DirsOverRuns(b, dirs, xs[0].after, xs[1..]);
    }
  }

  /** A call in a directory apart from `p` keeps what `p` lists and reads as. */
  lemma ApartStep(b: BootSector, dirs: Directories, x: Creation, start: u32, p: seq<u32>)
    requires b.Geometry() && InPlace(b, x.before, dirs) && Call(b, x) && x.dir in dirs
    requires ChainAt(b, x.before, start, p) && Apart(dirs[x.dir], p)
    ensures ChainAt(b, x.after, start, p) && DirListing(b, x.after, start) == DirListing(b, x.before, start)
    ensures forall e: DirEntry :: e.firstCluster == start ==> FileBytes(b, x.after, e) == FileBytes(b, x.before, e)
  {
    NonInterference(b, x, start, p);
    DirStored(b, x, dirs[x.dir]);
  }

  /** The directory is still the same chain when the record is written. */
  lemma DirStored(b: BootSector, x: Creation, cs: seq<u32>)
    requires b.Geometry() && Call(b, x) && DirAt(b, x.before, x.dir, cs)
    ensures ChainOf(b, x.stored, x.dir) == Ok(cs)
  {
    SoundIff(b, x.before, x.dir, cs);
    if |x.name| <= MAX_NAME {
      DirKept(b, x);
    }
  }

  /** The entry that a call adds to the listing of `a`, if any. */
  ghost function Added(x: Creation, a: u32): seq<DirEntry> {
    if x.dir == a && x.result.Ok? && |x.record| == RECORD_SIZE && !Unused(x.record[0])
    then [ParseRecord(x.record)] else []
  }

  ghost function AllAdded(xs: seq<Creation>, a: u32): seq<DirEntry> {
    if xs == [] then [] else Added(xs[0], a) + AllAdded(xs[1..], a)
  }

  /** The listing `es'` is `es` with the entries `added` among it. */
  ghost predicate Gained(es: Result<seq<DirEntry>>, es': Result<seq<DirEntry>>, added: seq<DirEntry>) {
    es.Ok? && es'.Ok? && multiset(es'.value) == multiset(es.value) + multiset(added)
  }

  /** One call changes the listing of a directory by exactly the entry it adds there. */
  lemma ListingStep(b: BootSector, dirs: Directories, x: Creation, a: u32)
    requires b.Geometry() && Separate(dirs) && InPlace(b, x.before, dirs) && Call(b, x) && x.dir in dirs && a in dirs
    ensures Gained(DirListing(b, x.before, a), DirListing(b, x.after, a), Added(x, a))
  {
    SoundIff(b, x.before, a, dirs[a]);
    if a == x.dir {
      CreateListing(b, x);
      InsertedGains(DirListing(b, x.before, a).value, DirListing(b, x.after, a).value, x.record,
                    x.result.Ok? && !Unused(x.record[0]));
    } else {
      SoundContent(b, x.before, a);
      ApartStep(b, dirs, x, a, dirs[a]);
    }
  }

  lemma InsertedGains(old': seq<DirEntry>, new': seq<DirEntry>, rec: seq<u8>, present: bool)
    requires |rec| == RECORD_SIZE && Inserted(old', new', rec, present)
    ensures multiset(new') == multiset(old') + multiset(if present then [ParseRecord(rec)] else [])
  {
    if present {
      var j :| 0 <= j <= |old'| && new' == old'[..j] + [ParseRecord(rec)] + old'[j..];
      OneMore(old'[..j], ParseRecord(rec), old'[j..]);
      assert old'[..j] + old'[j..] == old';
    }
  }

  lemma OneMore(xs: seq<DirEntry>, e: DirEntry, ys: seq<DirEntry>)
    ensures multiset(xs + [e] + ys) == multiset(xs + ys) + multiset([e])
  {
  }

  lemma GainedTwice(es: Result<seq<DirEntry>>, es1: Result<seq<DirEntry>>, es2: Result<seq<DirEntry>>,
                    xs: seq<DirEntry>, ys: seq<DirEntry>)
    requires Gained(es, es1, xs) && Gained(es1, es2, ys)
    ensures Gained(es, es2, xs + ys)
  {
  }

  /**
   At the end of every run in the directories each of them lists exactly the entries it listed at
   the start and one for each successful call in it whose name is listed.
   */
  lemma {:induction false} ListingOverRuns(b: BootSector, dirs: Directories, d: Disk, xs: seq<Creation>, a: u32)
    requires b.Geometry() && Separate(dirs) && InPlace(b, d, dirs) && Run(b, d, xs) && InDirs(dirs, xs) && a in dirs
    ensures Gained(DirListing(b, d, a), DirListing(b, End(d, xs), a), AllAdded(xs, a))
    decreases |xs|
  {
    if xs == [] {
      SoundIff(b, d, a, dirs[a]);
      SoundContent(b, d, a);
    } else {
      var x, later := xs[0], xs[1..];
      ListingStep(b, dirs, x, a);
      DirsStep(b, dirs, x);
      ListingOverRuns(b, dirs, x.after, later, a);
      GainedTwice(DirListing(b, d, a), DirListing(b, x.after, a), DirListing(b, End(d, xs), a),
                  Added(x, a), AllAdded(later, a));
    }
  }

  lemma GainedKeeps(es: Result<seq<DirEntry>>, es': Result<seq<DirEntry>>, added: seq<DirEntry>, e: DirEntry)
    requires Gained(es, es', added) && (e in es.value || e in added)
    ensures e in es'.value
  {
    assert e in multiset(es'.value);
  }

  // ---------- Files ----------

  /** Every run in the directories keeps what every file outside them reads as. */
  lemma {:induction false} FilesOverRuns(b: BootSector, dirs: Directories, d: Disk, xs: seq<Creation>,
                                         e: DirEntry, p: seq<u32>)
    requires b.Geometry() && InPlace(b, d, dirs) && Run(b, d, xs) && InDirs(dirs, xs)
    requires ChainAt(b, d, e.firstCluster, p) && Outside(dirs, p)
    ensures ChainAt(b, End(d, xs), e.firstCluster, p) && FileBytes(b, End(d, xs), e) == FileBytes(b, d, e)
    decreases |xs|
  {
    if xs != [] {
      var x, later := xs[0], xs[1..];
      ApartStep(b, dirs, x, e.firstCluster, p);
      DirsStep(b, dirs, x);
      FilesOverRuns(b, dirs, x.after, later, e, p);
    }
  }

  /**
   On `d` the file that `x` created is listed. If it is not empty it reads as it did right after
   `x`, and if it is empty it cannot be read.
   */
  ghost predicate Survives(b: BootSector, d: Disk, x: Creation)
    requires |x.record| == RECORD_SIZE
  {
    && DirListing(b, d, x.dir).Ok? && ParseRecord(x.record) in DirListing(b, d, x.dir).value
    && ReadsAsCreated(b, d, x, ParseRecord(x.record))
  }

  ghost predicate ReadsAsCreated(b: BootSector, d: Disk, x: Creation, e: DirEntry) {
    if x.data == [] then !FileBytes(b, d, e).Ok?
    else
      && FileBytes(b, d, e) == FileBytes(b, x.after, e)
      && (b.sectorsPerCluster > 0 && Needed(b, x.data) <= MAX_ITERATIONS ==>
            FileBytes(b, d, e) == Ok(ReadBack(b, x.before, x.clusters, x.data)))
  }

  /** The clusters of a new file are outside the directories. */
  lemma TakenOutside(b: BootSector, dirs: Directories, x: Creation)
    requires b.Geometry() && InPlace(b, x.before, dirs) && Call(b, x)
    ensures Outside(dirs, x.clusters)
  {
    forall a | a in dirs ensures Apart(dirs[a], x.clusters) {
      NonInterference(b, x, a, dirs[a]);
    }
  }

  lemma StaysListed(b: BootSector, dirs: Directories, x: Creation, later: seq<Creation>)
    requires b.Geometry() && Separate(dirs) && InPlace(b, x.before, dirs) && Call(b, x) && x.dir in dirs
    requires Run(b, x.after, later) && InDirs(dirs, later) && x.result.Ok? && !Unused(x.record[0])
    ensures var es := DirListing(b, End(x.after, later), x.dir); es.Ok? && ParseRecord(x.record) in es.value
  {
    ListingStep(b, dirs, x, x.dir);
    GainedKeeps(DirListing(b, x.before, x.dir), DirListing(b, x.after, x.dir), Added(x, x.dir), ParseRecord(x.record));
    DirsStep(b, dirs, x);
    ListingOverRuns(b, dirs, x.after, later, x.dir);
    GainedKeeps(DirListing(b, x.after, x.dir), DirListing(b, End(x.after, later), x.dir), AllAdded(later, x.dir),
                ParseRecord(x.record));
  }

  lemma StaysReadable(b: BootSector, dirs: Directories, x: Creation, later: seq<Creation>, e: DirEntry)
    requires b.Geometry() && InPlace(b, x.before, dirs) && Call(b, x) && Run(b, x.after, later) && InDirs(dirs, later)
    requires x.clusters != [] && e.firstCluster == x.clusters[0]
    ensures FileBytes(b, End(x.after, later), e) == FileBytes(b, x.after, e)
  {
    Taken(b, x);
    TakenOutside(b, dirs, x);
    DirsStep(b, dirs, x);
    FilesOverRuns(b, dirs, x.after, later, e, x.clusters);
  }

  lemma EmptyStaysUnreadable(b: BootSector, d: Disk, x: Creation)
    requires RecordMade(x) && |x.record| == RECORD_SIZE && Created(b, x) && x.data == []
    ensures !FileBytes(b, d, ParseRecord(x.record)).Ok?
  {
    RecordMadeParses(x);
    NoClustersTaken(b, x);
    Cluster0Unreadable(b, d);
  }

  lemma StaysAsCreated(b: BootSector, dirs: Directories, x: Creation, later: seq<Creation>)
    requires b.Geometry() && InPlace(b, x.before, dirs) && Call(b, x) && x.dir in dirs
    requires Run(b, x.after, later) && InDirs(dirs, later)
    requires RecordMade(x) && x.result.Ok? && x.data != []
    ensures ReadsAsCreated(b, End(x.after, later), x, ParseRecord(x.record))
  {
    RecordMadeParses(x);
    ChunkCountBounds(|x.data|, ClusterSize(b));
    StaysReadable(b, dirs, x, later, ParseRecord(x.record));
    SoundIff(b, x.before, x.dir, dirs[x.dir]);
    ReadableIff(b, x);
  }

  lemma FirstSurvives(b: BootSector, dirs: Directories, d: Disk, xs: seq<Creation>)
    requires b.Geometry() && Separate(dirs) && InPlace(b, d, dirs) && Run(b, d, xs) && InDirs(dirs, xs) && xs != []
    requires RecordMade(xs[0]) && |xs[0].record| == RECORD_SIZE && xs[0].result.Ok?
    requires xs[0].name == [] || !Unused(xs[0].name[0])
    ensures Survives(b, End(d, xs), xs[0])
  {
    var x, later := xs[0], xs[1..];
    assert !Unused(x.record[0]) by { RecordMadeParses(x); }
    StaysListed(b, dirs, x, later);
    if x.data == [] {
      EmptyStaysUnreadable(b, End(x.after, later), x);
    } else {
      StaysAsCreated(b, dirs, x, later);
    }
  }

  /**
   Over every run of `create_file` calls in the directories, with any results, each file created on
   the way is listed and reads the same at the end as right after its own call; if it takes at most
   10000 clusters that is its data, up to the sectors its call did not write.
   */
  lemma {:induction false} CreatedFilesSurvive(b: BootSector, dirs: Directories, d: Disk, xs: seq<Creation>, i: nat)
    requires b.Geometry() && Separate(dirs) && InPlace(b, d, dirs) && Run(b, d, xs) && InDirs(dirs, xs) && i < |xs|
    requires RecordMade(xs[i]) && |xs[i].record| == RECORD_SIZE && xs[i].result.Ok?
    requires xs[i].name == [] || !Unused(xs[i].name[0])
    ensures Survives(b, End(d, xs), xs[i])
    decreases i
  {
    if i == 0 {
      FirstSurvives(b, dirs, d, xs);
    } else {
      DirsTail(b, dirs, d, xs);
      CreatedFilesSurvive(b, dirs, xs[0].after, xs[1..], i - 1);
    }
  }
}
