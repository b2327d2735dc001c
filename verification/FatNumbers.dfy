/**
 The driver in bytes and sector numbers: where the fields of the boot sector put the FATs, the
 clusters, the entries of the table and the records of a directory, and what is read there.
 */
module FatNumbers {
  import opened Common
  import opened Bytes
  import opened BlockDevice
  import opened Arithmetic
  import opened FatLayout
  import opened FatChain
  import opened FatContent
  import opened FatAlloc
  import opened Directory
  import opened FatFiles
  import opened FatTheorems

  // ---------- The areas of the volume ----------

  /** Sector number `j` of FAT copy number `i`. */
  predicate FatHolds(b: BootSector, lba: int, i: int, j: int) {
    0 <= i < b.numFats && 0 <= j < b.sectorsPerFat && lba == b.reservedSectors + i * b.sectorsPerFat + j
  }

  /** Sector number `j` of cluster `c`. */
  predicate ClusterHolds(b: BootSector, lba: int, c: int, j: int) {
    c >= 2 && 0 <= j < b.sectorsPerCluster && lba == b.ClusterToSector(c) + j
  }

  /** Behind the reserved sectors every sector belongs to one FAT copy or to one cluster. */
  lemma Tiling(b: BootSector, lba: int) returns (inFat: bool, n: int, j: int)
    requires lba >= b.reservedSectors && b.sectorsPerCluster > 0
    ensures if inFat then FatHolds(b, lba, n, j) else ClusterHolds(b, lba, n, j)
  {
    var at, fats := lba - b.reservedSectors, b.numFats * b.sectorsPerFat;
    inFat := at < fats;
    if inFat {
      n, j := QuotientBelow(at, b.numFats, b.sectorsPerFat);
    } else {
      var q, r := Quotient(at - fats, b.sectorsPerCluster);
      n, j := q + 2, r;
      ClusterAt(b, q);
    }
  }

  lemma ClusterAt(b: BootSector, q: nat)
    ensures b.ClusterToSector(q + 2) == b.DataStart() + q * b.sectorsPerCluster
  {
  }

  lemma Quotient(x: nat, n: nat) returns (q: nat, r: nat)
    requires n > 0
    ensures x == q * n + r && r < n
  {
    q, r := x / n, x % n;
    assert x == n * q + r;
  }

  lemma QuotientBelow(x: nat, m: nat, n: nat) returns (q: nat, r: nat)
    requires x < m * n
    ensures q < m && x == q * n + r && r < n
  {
    q, r := Quotient(x, n);
    if q >= m {
      MultiplyMonotone(m, q, n);
      assert false;
    }
  }

  /** And to only one: the FAT copies do not overlap each other, */
  lemma CopiesDisjoint(b: BootSector, lba: int, i: int, j: int, i': int, j': int)
    requires FatHolds(b, lba, i, j) && FatHolds(b, lba, i', j')
    ensures i == i' && j == j'
  {
    assert (i - i') * b.sectorsPerFat == j' - j;
    if i != i' {
      MultipleIsFar(i - i', b.sectorsPerFat);
    }
  }

  /** nor the clusters. */
  lemma FatsBeforeClusters(b: BootSector, lba: int, i: int, j: int, lba': int, c: int, j': int)
    requires FatHolds(b, lba, i, j) && ClusterHolds(b, lba', c, j')
    ensures lba < lba'
  {
    FatBelowData(b, i, j);
    Distribute(c - 2, b.sectorsPerCluster);
  }

  lemma FatBelowData(b: BootSector, i: nat, j: nat)
    requires i < b.numFats && j < b.sectorsPerFat
    ensures b.reservedSectors + i * b.sectorsPerFat + j < b.reservedSectors + b.numFats * b.sectorsPerFat
  {
    Distribute(i, b.sectorsPerFat);
    MultiplyMonotone(i + 1, b.numFats, b.sectorsPerFat);
  }

  /** The number of sector `j` of cluster `c`, from the fields of the boot sector. */
  function SectorNumber(b: BootSector, c: int, j: int): int {
    b.reservedSectors + b.numFats * b.sectorsPerFat + (c - 2) * b.sectorsPerCluster + j
  }

  // ---------- The table ----------

  /** The four bytes of entry `c` in the first FAT copy, low byte first. */
  function Word(b: BootSector, d: Disk, c: u32): int {
    var s, o := At(d, b.reservedSectors + c / 128), 4 * (c % 128);
    s[o] as int + 0x100 * s[o + 1] as int + 0x1_0000 * s[o + 2] as int + 0x100_0000 * s[o + 3] as int
  }

  lemma EntryIsWord(b: BootSector, d: Disk, c: u32)
    ensures b.Entry(d, c) == Word(b, d, c)
  {
    assert (c * 4) / 512 == c / 128 && (c * 4) % 512 == 4 * (c % 128);
  }

  /** Entry `p[i]` of the table names the cluster `p[i + 1]`. */
  predicate LinksTo(b: BootSector, d: Disk, p: seq<u32>, i: nat)
    requires i < |p| - 1
  {
    Word(b, d, p[i]) == p[i + 1] && p[i + 1] < 0x0FFF_FFF8
  }

  /** The chain that `follow_cluster_chain` returns, in the bytes of the table. */
  lemma ChainInBytes(b: BootSector, d: Disk, start: u32, p: seq<u32>)
    ensures ChainOf(b, d, start) == Ok(p) <==>
            && 1 <= |p| <= 10000 && p[0] == start
            && (forall i :: 0 <= i < |p| - 1 ==> LinksTo(b, d, p, i))
            && Word(b, d, p[|p| - 1]) >= 0x0FFF_FFF8
  {
    ChainOfIff(b, d, start, p);
    if p != [] {
      EntryIsWord(b, d, p[|p| - 1]);
      PathInBytes(b, d, p);
    }
  }

  lemma PathInBytes(b: BootSector, d: Disk, p: seq<u32>)
    requires p != []
    ensures IsPath(b, d, p[0], p) <==> forall i :: 0 <= i < |p| - 1 ==> LinksTo(b, d, p, i)
  {
    forall i | 0 <= i < |p| - 1 ensures LinkedAt(b, d, p, i) <==> LinksTo(b, d, p, i) {
      EntryIsWord(b, d, p[i]);
    }
  }

  /** `find_free_cluster` looks for the lowest cluster from 2 on whose four bytes are zero. */
  lemma FirstFreeInBytes(b: BootSector, d: Disk, c: u32)
    ensures FirstFree(b, d, c) <==>
            && 2 <= c < 128 * b.sectorsPerFat && Word(b, d, c) == 0
            && forall k: u32 :: 2 <= k < c ==> Word(b, d, k) != 0
  {
    forall k: u32 ensures b.Entry(d, k) == Word(b, d, k) {
      EntryIsWord(b, d, k);
    }
  }

  /** The bytes that `set_fat_entry` changes: four in the first copy; the sector then replaces that of the second. */
  lemma EntryWrites(b: BootSector, d: Disk, c: u32, v: u32, lba: int, k: nat)
    requires b.Geometry() && c < 128 * b.sectorsPerFat && k < 512
    ensures var first, o := b.reservedSectors + c / 128, 4 * (c % 128);
            var written := if o <= k < o + 4 then Octet(v, k - o) else At(d, first)[k];
            At(StoreEntry(b, d, c, v), lba)[k]
            == if lba == first || (b.numFats >= 2 && lba == first + b.sectorsPerFat) then written else At(d, lba)[k]
  {
    var first, o := b.reservedSectors + c / 128, 4 * (c % 128);
    assert (c * 4) / 512 == c / 128 && (c * 4) % 512 == o;
    FatAreaBounds(b);
    PatchedByte(At(d, first), o, v, k);
  }

  /** Byte number `i` of a 32-bit number, from the lowest. */
  function Octet(v: u32, i: nat): u8 {
    if i == 0 then v % 0x100 else if i == 1 then v / 0x100 % 0x100 else if i == 2 then v / 0x1_0000 % 0x100
    else v / 0x100_0000 % 0x100
  }

  lemma PatchedByte(s: Sector, o: nat, v: u32, k: nat)
    requires o + 4 <= 512 && k < 512
    ensures Patch(s, o, Put32(v))[k] == if o <= k < o + 4 then Octet(v, k - o) else s[k]
  {
    assert v / 0x100_0000 % 0x100 == v / 0x100_0000;
  }

  // ---------- Files ----------

  /** The place, in a file, of byte `o` of sector `j` of its cluster number `q`. */
  function Place(b: BootSector, q: nat, j: nat, o: nat): nat { 512 * (q * b.sectorsPerCluster + j) + o }

  /** Every place is that of exactly one byte. */
  lemma Placed(b: BootSector, k: nat, n: nat) returns (q: nat, j: nat, o: nat)
    requires k < 512 * (n * b.sectorsPerCluster)
    ensures q < n && j < b.sectorsPerCluster && o < 512 && k == Place(b, q, j, o)
  {
    var sector: nat := k / 512;
    o := k % 512;
    q, j := QuotientBelow(sector, n, b.sectorsPerCluster);
  }

  lemma PlaceInCluster(n: nat, q: nat, j: nat, o: nat)
    requires j < n && o < 512
    ensures 512 * (q * n + j) + o == 512 * n * q + (512 * j + o) && 512 * j + o < 512 * n
    ensures (512 * j + o) / 512 == j && (512 * j + o) % 512 == o
  {
    var m := q * n;
    assert 512 * n * q == 512 * m;
  }

  /** Where each byte of the clusters `cs` is on the disk. */
  lemma ContentInSectors(b: BootSector, d: Disk, cs: seq<u32>, q: nat, j: nat, o: nat)
    requires q < |cs| && j < b.sectorsPerCluster && o < 512
    ensures Place(b, q, j, o) < |Content(b, d, cs)|
    ensures Content(b, d, cs)[Place(b, q, j, o)] == At(d, SectorNumber(b, cs[q], j))[o]
  {
    PlaceInCluster(b.sectorsPerCluster, q, j, o);
    ContentAt(b, d, cs, q, 512 * j + o);
  }

  /** The cluster and all its sectors have 32-bit numbers. */
  predicate Addressable(b: BootSector, c: int) {
    && c >= 2 && SectorNumber(b, c, 0) < 0x1_0000_0000
    && SectorNumber(b, c, 0) + b.sectorsPerCluster <= 0x1_0000_0000
  }

  /** `read_file` returns bytes if and only if every cluster of the chain is addressable, and how many. */
  lemma FileLength(b: BootSector, d: Disk, e: DirEntry, cs: seq<u32>)
    requires ChainOf(b, d, e.firstCluster) == Ok(cs)
    ensures FileBytes(b, d, e).Ok? <==> forall c :: c in cs ==> Addressable(b, c)
    ensures FileBytes(b, d, e).Ok? ==>
              var all := 512 * (|cs| * b.sectorsPerCluster);
              |FileBytes(b, d, e).value| == if e.fileSize < all then e.fileSize else all
  {
    assert forall c :: c in cs ==> (b.Fits(c) <==> Addressable(b, c));
    ContentLength(b, d, cs);
    WholeLength(b.sectorsPerCluster, |cs|);
  }

  lemma WholeLength(n: nat, m: nat)
    ensures 512 * n * m == 512 * (m * n)
  {
    var k := n * m;
    assert 512 * n * m == 512 * k;
  }

  /** The sector that `read_file` takes each byte from. */
  lemma FileInSectors(b: BootSector, d: Disk, e: DirEntry, cs: seq<u32>, q: nat, j: nat, o: nat)
    requires ChainOf(b, d, e.firstCluster) == Ok(cs) && FileBytes(b, d, e).Ok?
    requires q < |cs| && j < b.sectorsPerCluster && o < 512 && Place(b, q, j, o) < e.fileSize
    ensures Place(b, q, j, o) < |FileBytes(b, d, e).value|
    ensures FileBytes(b, d, e).value[Place(b, q, j, o)] == At(d, SectorNumber(b, cs[q], j))[o]
  {
    ContentInSectors(b, d, cs, q, j, o);
    TruncatedAt(Content(b, d, cs), e.fileSize, Place(b, q, j, o));
  }

  lemma TruncatedAt(s: seq<u8>, n: nat, k: nat)
    requires k < n && k < |s|
    ensures k < |Truncate(s, n)| && Truncate(s, n)[k] == s[k]
  {
  }

  /** After the data loop of `create_file` the first sector of each new cluster holds data, then zeros. */
  lemma SectorsFilled(b: BootSector, x: Creation, i: nat, k: nat)
    requires b.Geometry() && |x.record| == 32 && Created(b, x) && i < |x.clusters| && k < 512
    ensures At(x.stored, SectorNumber(b, x.clusters[i], 0))[k]
            == if Place(b, i, 0, k) < |x.data| then x.data[Place(b, i, 0, k)] else 0
  {
    CreatedLaysOut(b, x);
    FilledAt(b, x.before, x.stored, x.clusters, x.data, i, k);
  }

  lemma FilledAt(b: BootSector, d: Disk, d': Disk, cs: seq<u32>, data: seq<u8>, i: nat, k: nat)
    requires DataStored(b, d, d', cs, data) && b.sectorsPerCluster > 0 && i < |cs| && k < 512
    ensures At(d', SectorNumber(b, cs[i], 0))[k] == if Place(b, i, 0, k) < |data| then data[Place(b, i, 0, k)] else 0
  {
    assert At(d', b.ClusterToSector(cs[i])) == FirstSector(b, data, i);
    PlaceInCluster(b.sectorsPerCluster, i, 0, k);
  }

  // ---------- Directories ----------

  /** Whether a record is in use, and the entry it holds, by the positions of its bytes. */
  predicate InUse(r: seq<u8>)
    requires |r| == 32
  {
    r[0] != 0x00 && r[0] != 0xE5
  }

  function EntryOf(r: seq<u8>): (e: DirEntry)
    requires |r| == 32
  {
    DirEntry(r[..11], r[11],
             r[26] as int + 0x100 * r[27] as int + 0x1_0000 * r[20] as int + 0x100_0000 * r[21] as int,
             r[28] as int + 0x100 * r[29] as int + 0x1_0000 * r[30] as int + 0x100_0000 * r[31] as int)
  }

  lemma ReadAsEntry(r: seq<u8>)
    requires |r| == 32
    ensures (Unused(r[0]) <==> !InUse(r)) && ParseRecord(r) == EntryOf(r)
  {
  }

  /** A record that is not in use adds nothing to a listing; any other adds its entry at its place. */
  lemma RecordListed(xs: seq<u8>, r: seq<u8>, ys: seq<u8>)
    requires |xs| % 32 == 0 && |r| == 32
    ensures Listing([]) == []
    ensures Listing(xs + r + ys) == Listing(xs) + (if InUse(r) then [EntryOf(r)] else []) + Listing(ys)
  {
    ReadAsEntry(r);
    Associate(xs, r, ys);
    ListThree(xs, r, ys);
    Associate(Listing(xs), if InUse(r) then [EntryOf(r)] else [], Listing(ys));
  }

  /** Record number `i` of a directory's bytes. */
  function Record(bs: seq<u8>, i: nat): (r: seq<u8>)
    requires 32 * (i + 1) <= |bs|
    ensures |r| == 32
  {
    bs[32 * i..32 * (i + 1)]
  }

  ghost predicate Holds(bs: seq<u8>, i: nat, e: DirEntry) {
    32 * (i + 1) <= |bs| && InUse(Record(bs, i)) && e == EntryOf(Record(bs, i))
  }

  /** An entry is listed if and only if some record in use holds it. */
  lemma {:induction false} ListedIff(bs: seq<u8>, e: DirEntry)
    requires |bs| % 32 == 0
    ensures e in Listing(bs) <==> exists i: nat :: Holds(bs, i, e)
  {
    if bs != [] {
      var first, rest := bs[..32], bs[32..];
      ListedIff(rest, e);
      FirstListed(bs, e);
      FirstHeld(bs, e);
    }
  }

  lemma FirstListed(bs: seq<u8>, e: DirEntry)
    requires |bs| >= 32
    ensures e in Listing(bs) <==> (InUse(bs[..32]) && e == EntryOf(bs[..32])) || e in Listing(bs[32..])
  {
    assert bs == [] + bs[..32] + bs[32..];
    RecordListed([], bs[..32], bs[32..]);
  }

  lemma FirstHeld(bs: seq<u8>, e: DirEntry)
    requires |bs| >= 32
    ensures (exists i: nat :: Holds(bs, i, e))
            <==> (InUse(bs[..32]) && e == EntryOf(bs[..32])) || exists i: nat :: Holds(bs[32..], i, e)
  {
    assert Record(bs, 0) == bs[..32];
    if i: nat :| Holds(bs[32..], i, e) {
      LaterRecord(bs, i);
      assert Holds(bs, i + 1, e);
    }
    if i: nat :| Holds(bs, i, e) && i > 0 {
      LaterRecord(bs, i - 1);
      assert Holds(bs[32..], i - 1, e);
    }
    assert InUse(bs[..32]) && e == EntryOf(bs[..32]) ==> Holds(bs, 0, e);
  }

  lemma LaterRecord(bs: seq<u8>, i: nat)
    requires |bs| >= 32 && 32 * (i + 2) <= |bs|
    ensures Record(bs[32..], i) == Record(bs, i + 1)
  {
  }

  /** What `list_directory` returns: the entries of the records in use of the directory's sectors. */
  lemma DirectoryInRecords(b: BootSector, d: Disk, dir: u32, cs: seq<u32>, e: DirEntry)
    requires ChainOf(b, d, dir) == Ok(cs)
    ensures DirListing(b, d, dir).Ok? <==> forall c :: c in cs ==> Addressable(b, c)
    ensures DirListing(b, d, dir).Ok? ==>
              (e in DirListing(b, d, dir).value <==> exists i: nat :: Holds(Content(b, d, cs), i, e))
  {
    ContentRecords(b, d, cs);
    ListedIff(Content(b, d, cs), e);
    ListingOfContent(b, d, dir, cs);
  }

  lemma ListingOfContent(b: BootSector, d: Disk, dir: u32, cs: seq<u32>)
    requires ChainOf(b, d, dir) == Ok(cs)
    ensures DirListing(b, d, dir)
            == if forall c :: c in cs ==> Addressable(b, c) then Ok(Listing(Content(b, d, cs))) else Panic
  {
    assert forall c :: c in cs ==> (b.Fits(c) <==> Addressable(b, c));
  }

  /** Where `write_dir_entry` stores: in the first record that is not in use, and nowhere else. */
  lemma StoredInRecord(b: BootSector, d: Disk, d': Disk, cs: seq<u32>, rec: seq<u8>, j: nat, lba: int)
    requires |rec| == 32 && RecordStored(b, d, d', cs, rec, j, lba)
    ensures var bs, bs' := Content(b, d, cs), Content(b, d', cs);
            && |bs'| == |bs| && 32 * (j + 1) <= |bs| && !InUse(Record(bs, j)) && Record(bs', j) == rec
            && (forall i: nat :: i < j ==> InUse(Record(bs, i)))
            && (forall k :: 0 <= k < |bs| && !(32 * j <= k < 32 * (j + 1)) ==> bs'[k] == bs[k])
  {
    var bs, bs' := Content(b, d, cs), Content(b, d', cs);
    assert Record(bs, j)[0] == Lead(bs, j);
    forall i: nat | i < j ensures InUse(Record(bs, i)) {
      assert Record(bs, i)[0] == Lead(bs, i);
    }
  }
}
