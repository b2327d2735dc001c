/**
 The on-disk layout of a FAT32 volume: where the FAT copies and the clusters lie,
 and how the bytes of a FAT sector encode the entries of the allocation table.
 */
module FatLayout {
  import opened Bytes
  import opened BlockDevice
  import opened Arithmetic

  const END_OF_CHAIN: u32 := 0x0FFF_FFF8
  const ENTRIES_PER_SECTOR := 128

  /** Where the entry of `c` starts within its FAT sector. */
  function EntryOffset(c: u32): (o: nat)
    ensures o % 4 == 0 && o + 4 <= SECTOR_SIZE
  {
    (c * 4) % SECTOR_SIZE
  }

  datatype BootSector = BootSector(
    sectorsPerCluster: u8,
    reservedSectors: u16,
    numFats: u8,
    sectorsPerFat: u32,
    rootCluster: u32)
  {
    function FatStart(): int { reservedSectors }

    function DataStart(): int { reservedSectors + numFats * sectorsPerFat }

    /** First sector of a cluster; meaningful, without overflow, when `Fits`. */
    function ClusterToSector(c: int): int {
      DataStart() + (c - 2) * sectorsPerCluster
    }

    /** Locating `c` and every sector in it stays within u32, so nothing panics. */
    predicate Fits(c: int) {
      c >= 2
      && ClusterToSector(c) < U32_LIMIT
      && ClusterToSector(c) + sectorsPerCluster <= U32_LIMIT
    }

    /** The number of entries in the allocation table. */
    function Entries(): nat { sectorsPerFat * ENTRIES_PER_SECTOR }

    /** `c` is the number of a data cluster of this volume. */
    predicate InRange(c: int) { 2 <= c < Entries() }

    /** A volume whose FAT numbers only real clusters, all addressable with 32 bits. */
    predicate Geometry() {
      sectorsPerCluster >= 1 && numFats >= 1 && sectorsPerFat >= 1
      && Entries() <= END_OF_CHAIN
      && DataStart() + (Entries() - 2) * sectorsPerCluster <= U32_LIMIT
    }

    function FatSector(c: u32): (s: u32) {
      FatStart() + (c * 4) / SECTOR_SIZE
    }

    /** The FAT entry of cluster `c` as the code decodes it from the first FAT copy. */
    function Entry(d: Disk, c: u32): u32 {
      Get32(At(d, FatSector(c)), EntryOffset(c))
    }

    /** The first two FAT copies hold the same sectors. */
    ghost predicate Mirrored(d: Disk) {
      forall i :: FatStart() <= i < FatStart() + sectorsPerFat ==> At(d, i) == At(d, i + sectorsPerFat)
    }

    /** The FAT sector of `c` with the entry of `c` overwritten by `v`. */
    function PatchedFatSector(d: Disk, c: u32, v: u32): Sector {
      Patch(At(d, FatSector(c)), EntryOffset(c), Put32(v))
    }

    /** The abstract effect of storing `v` for cluster `c`: one table entry changes, data sectors do not. */
    ghost predicate EntryStored(d: Disk, d': Disk, c: u32, v: u32) {
      && (forall k: u32 :: k < Entries() ==> Entry(d', k) == if k == c then v else Entry(d, k))
      && OnlyFatChanged(d, d')
    }

    /** Sectors outside the FAT copies are unchanged. */
    ghost predicate OnlyFatChanged(d: Disk, d': Disk) {
      forall lba :: lba < FatStart() || lba >= DataStart() ==> At(d', lba) == At(d, lba)
    }
  }

  /** `set_fat_entry` on the disk: the first copy, and a second one if the volume has it. */
  function StoreEntry(b: BootSector, d: Disk, c: u32, v: u32): Disk {
    var s := b.FatSector(c);
    var d1 := d[s := b.PatchedFatSector(d, c, v)];
    if b.numFats > 1 && s + b.sectorsPerFat < U32_LIMIT
    then d1[s + b.sectorsPerFat := b.PatchedFatSector(d, c, v)] else d1
  }

  lemma FatAreaBounds(b: BootSector)
    requires b.Geometry()
    ensures b.FatStart() + b.sectorsPerFat <= b.DataStart() < U32_LIMIT
    ensures b.numFats >= 2 ==> b.FatStart() + 2 * b.sectorsPerFat <= b.DataStart()
  {
    MultiplyMonotone(1, b.numFats, b.sectorsPerFat);
    if b.numFats >= 2 {
      MultiplyMonotone(2, b.numFats, b.sectorsPerFat);
    }
    ClusterEnd(2, b.Entries(), b.sectorsPerCluster);
  }

  /** Different clusters of one FAT sector sit at least four bytes apart. */
  lemma EntryInPatchedSector(b: BootSector, d: Disk, c: u32, v: u32, k: u32)
    requires b.FatSector(k) == b.FatSector(c)
    ensures Get32(b.PatchedFatSector(d, c, v), EntryOffset(k)) == if k == c then v else b.Entry(d, k)
  {
    var at, kt := EntryOffset(c), EntryOffset(k);
    var old', new' := At(d, b.FatSector(c)), b.PatchedFatSector(d, c, v);
    if k == c {
      assert forall i :: 0 <= i < 4 ==> new'[at + i] == Put32(v)[i];
    } else {
      assert kt + 4 <= at || at + 4 <= kt;
      assert forall i :: kt <= i < kt + 4 ==> new'[i] == old'[i];
    }
  }

  /** Storing an entry through bytes, sectors and the backup copy is a one-slot table update. */
  lemma StoreEntryRefines(b: BootSector, d: Disk, c: u32, v: u32)
    requires b.Geometry() && c < b.Entries()
    ensures b.EntryStored(d, StoreEntry(b, d, c, v), c, v)
    ensures b.numFats >= 2 && b.Mirrored(d) ==> b.Mirrored(StoreEntry(b, d, c, v))
  {
    var d' := StoreEntry(b, d, c, v);
    var s, p := b.FatSector(c), b.PatchedFatSector(d, c, v);
    FatAreaBounds(b);
    assert s < b.FatStart() + b.sectorsPerFat;
    forall k: u32 | k < b.Entries()
      ensures b.Entry(d', k) == if k == c then v else b.Entry(d, k)
    {
      assert b.FatSector(k) < b.FatStart() + b.sectorsPerFat;
      if b.FatSector(k) == s {
        EntryInPatchedSector(b, d, c, v, k);
      }
    }
    if b.numFats >= 2 && b.Mirrored(d) {
      forall i | b.FatStart() <= i < b.FatStart() + b.sectorsPerFat
        ensures At(d', i) == At(d', i + b.sectorsPerFat)
      {
        assert At(d, i) == At(d, i + b.sectorsPerFat);
      }
    }
  }

  /** `(e - 2) * n` covers the `n` sectors of every cluster `2 <= c < e`. */
  lemma ClusterEnd(c: int, e: int, n: nat)
    requires 2 <= c < e
    ensures 0 <= (c - 2) * n && (c - 2) * n + n <= (e - 2) * n
  {
    MultiplyMonotone(c - 1, e - 2, n);
    Distribute(c - 2, n);
  }

  /** Every cluster of the volume can be located, and lies after the FAT copies. */
  lemma InRangeFits(b: BootSector, c: int)
    requires b.Geometry() && b.InRange(c)
    ensures b.Fits(c) && b.ClusterToSector(c) >= b.DataStart()
  {
    ClusterEnd(c, b.Entries(), b.sectorsPerCluster);
  }

  /** Two different clusters share no sector. */
  lemma ClustersDisjoint(b: BootSector, c: int, i: int, c': int, i': int)
    requires 0 <= i < b.sectorsPerCluster && 0 <= i' < b.sectorsPerCluster
    requires b.ClusterToSector(c) + i == b.ClusterToSector(c') + i'
    ensures c == c' && i == i'
  {
    assert (c - c') * b.sectorsPerCluster == i' - i;
    if c != c' {
      MultipleIsFar(c - c', b.sectorsPerCluster);
    }
  }
}
