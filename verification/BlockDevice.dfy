/** The block device: 512-byte sectors addressed by number, read and written whole. */
module BlockDevice {
  import opened Bytes

  const SECTOR_SIZE := 512

  type Sector = s: seq<u8> | |s| == SECTOR_SIZE witness seq(SECTOR_SIZE, _ => 0)

  /** A sparse disk image: sectors that were never written read as zeros. */
  type Disk = map<int, Sector>

  function At(d: Disk, lba: int): Sector {
    if lba in d then d[lba] else seq(SECTOR_SIZE, _ => 0)
  }

  /** The disks read the same, except perhaps at `lba`. */
  ghost predicate OnlyAt(d: Disk, d': Disk, lba: int) {
    forall k :: k != lba ==> At(d', k) == At(d, k)
  }

  class Device {
    var sectors: Disk

    method Read(lba: u32) returns (s: Sector)
      ensures s == At(sectors, lba)
    {
      s := if lba in sectors then sectors[lba] else seq(SECTOR_SIZE, _ => 0);
    }

    method Write(lba: u32, s: Sector)
      modifies this
      ensures sectors == old(sectors)[lba := s]
    {
      sectors := sectors[lba := s];
    }
  }
}
