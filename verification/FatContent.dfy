/** The byte string stored in a list of clusters: the content of a file or a directory. */
module FatContent {
  import opened Bytes
  import opened BlockDevice
  import opened FatLayout

  /** Byte number `r` counted from the start of sector `first`. */
  function ByteAt(d: Disk, first: int, r: nat): u8 {
    At(d, first + r / SECTOR_SIZE)[r % SECTOR_SIZE]
  }

  /** The bytes of `n` consecutive sectors. */
  function SectorBytes(d: Disk, first: int, n: nat): (s: seq<u8>)
    ensures |s| == SECTOR_SIZE * n
  {
    if n == 0 then [] else SectorBytes(d, first, n - 1) + At(d, first + n - 1)
  }

  /** The bytes of the clusters `cs`, in order. */
  function Content(b: BootSector, d: Disk, cs: seq<u32>): seq<u8> {
    if cs == [] then []
    else Content(b, d, cs[..|cs| - 1])
         + SectorBytes(d, b.ClusterToSector(cs[|cs| - 1]), b.sectorsPerCluster)
  }

  function ClusterSize(b: BootSector): nat { SECTOR_SIZE * b.sectorsPerCluster }

  /** The sector `lba` belongs to one of the clusters `cs`. */
  ghost predicate Occupies(b: BootSector, cs: seq<u32>, lba: int) {
    exists c :: c in cs && b.ClusterToSector(c) <= lba < b.ClusterToSector(c) + b.sectorsPerCluster
  }

  lemma {:induction false} SectorBytesFrame(d: Disk, d': Disk, first: int, n: nat)
    requires forall lba :: first <= lba < first + n ==> At(d', lba) == At(d, lba)
    ensures SectorBytes(d', first, n) == SectorBytes(d, first, n)
  {
    if n > 0 {
      SectorBytesFrame(d, d', first, n - 1);
    }
  }

  lemma {:induction false} SectorBytesSplit(d: Disk, first: int, n: nat, i: nat)
    requires i <= n
    ensures SectorBytes(d, first, n) == SectorBytes(d, first, i) + SectorBytes(d, first + i, n - i)
  {
    if i < n {
      SectorBytesSplit(d, first, n - 1, i);
    }
  }

  lemma {:induction false} SectorBytesAt(d: Disk, first: int, n: nat, r: nat)
    requires r < SECTOR_SIZE * n
    ensures SectorBytes(d, first, n)[r] == ByteAt(d, first, r)
  {
    if r < SECTOR_SIZE * (n - 1) {
      SectorBytesAt(d, first, n - 1, r);
    }
  }

  /** Content depends only on the sectors its clusters occupy. */
  lemma {:induction false} ContentFrame(b: BootSector, d: Disk, d': Disk, cs: seq<u32>)
    requires forall lba :: Occupies(b, cs, lba) ==> At(d', lba) == At(d, lba)
    ensures Content(b, d', cs) == Content(b, d, cs)
  {
    if cs != [] {
      var init, last := cs[..|cs| - 1], cs[|cs| - 1];
      forall lba | Occupies(b, init, lba) ensures At(d', lba) == At(d, lba) {
        var c :| c in init && b.ClusterToSector(c) <= lba < b.ClusterToSector(c) + b.sectorsPerCluster;
        assert Occupies(b, cs, lba);
      }
      ContentFrame(b, d, d', init);
      forall lba | b.ClusterToSector(last) <= lba < b.ClusterToSector(last) + b.sectorsPerCluster
        ensures At(d', lba) == At(d, lba)
      {
        assert last in cs;
        assert Occupies(b, cs, lba);
      }
      SectorBytesFrame(d, d', b.ClusterToSector(last), b.sectorsPerCluster);
    }
  }

  lemma {:induction false} ContentAppend(b: BootSector, d: Disk, xs: seq<u32>, ys: seq<u32>)
    ensures Content(b, d, xs + ys) == Content(b, d, xs) + Content(b, d, ys)
    decreases |ys|
  {
    if ys == [] {
      assert xs + ys == xs;
    } else {
      var init := ys[..|ys| - 1];
      ContentAppend(b, d, xs, init);
      assert (xs + ys)[..|xs + ys| - 1] == xs + init;
    }
  }

  /** Byte `r` of cluster number `q` of the list, found on disk. */
  lemma {:induction false} ContentAt(b: BootSector, d: Disk, cs: seq<u32>, q: nat, r: nat)
    requires q < |cs| && r < ClusterSize(b)
    ensures |Content(b, d, cs)| == ClusterSize(b) * |cs|
    ensures var at, bytes := ClusterSize(b) * q + r, Content(b, d, cs);
            0 <= at < |bytes| && bytes[at] == ByteAt(d, b.ClusterToSector(cs[q]), r)
    decreases |cs|
  {
    var init := cs[..|cs| - 1];
    ContentLength(b, d, cs);
    ContentLength(b, d, init);
    Before(ClusterSize(b), q, |cs|, r);
    if q < |cs| - 1 {
      Before(ClusterSize(b), q, |cs| - 1, r);
      ContentAt(b, d, init, q, r);
    } else {
      SectorBytesAt(d, b.ClusterToSector(cs[q]), b.sectorsPerCluster, r);
    }
  }

  lemma {:induction false} ContentLength(b: BootSector, d: Disk, cs: seq<u32>)
    ensures |Content(b, d, cs)| == ClusterSize(b) * |cs|
  {
    if cs != [] {
      ContentLength(b, d, cs[..|cs| - 1]);
      assert ClusterSize(b) * |cs| == ClusterSize(b) * (|cs| - 1) + ClusterSize(b);
    }
  }

  /** Sectors and clusters are whole numbers of 32-byte records. */
  lemma {:induction false} ContentRecords(b: BootSector, d: Disk, cs: seq<u32>)
    ensures |Content(b, d, cs)| % 32 == 0
  {
    if cs != [] {
      ContentRecords(b, d, cs[..|cs| - 1]);
      WholeRecords(|Content(b, d, cs[..|cs| - 1])|, b.sectorsPerCluster);
    }
  }

  lemma WholeRecords(x: nat, n: nat)
    requires x % 32 == 0
    ensures (SECTOR_SIZE * n) % 32 == 0 && (x + SECTOR_SIZE * n) % 32 == 0
  {
  }

  lemma ContentNext(b: BootSector, d: Disk, cs: seq<u32>, i: nat)
    requires i < |cs|
    ensures Content(b, d, cs[..i + 1])
         == Content(b, d, cs[..i]) + SectorBytes(d, b.ClusterToSector(cs[i]), b.sectorsPerCluster)
  {
    assert cs[..i + 1][..i] == cs[..i];
  }

  lemma Before(size: nat, q: nat, n: nat, r: nat)
    requires q < n && r < size
    ensures size * q + r < size * n
  {
    assert size * n == size * q + size + size * (n - q - 1);
  }
}
