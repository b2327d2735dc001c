/** Fixed-width integers, byte strings and the little-endian encodings used on disk. */
module Bytes {
  const U32_LIMIT := 0x1_0000_0000

  type u8 = x: int | 0 <= x < 0x100
  type u16 = x: int | 0 <= x < 0x1_0000
  type u32 = x: int | 0 <= x < U32_LIMIT

  /** The outcome of an operation: its value, the error it returns, or a panic. */
  datatype Result<+T> = Ok(value: T) | Err(error: Error) | Panic

  datatype Error = ChainTooLong | NoFreeClusters | NameTooLong | NoFreeDirEntries

  function Get16(s: seq<u8>, at: nat): (v: u16)
    requires at + 2 <= |s|
  {
    s[at] + 0x100 * s[at + 1] as int
  }

  function Put16(v: u16): (s: seq<u8>)
    ensures |s| == 2 && Get16(s, 0) == v
  {
    [v % 0x100, v / 0x100]
  }

  function Get32(s: seq<u8>, at: nat): (v: u32)
    requires at + 4 <= |s|
  {
    s[at] + 0x100 * s[at + 1] as int + 0x1_0000 * s[at + 2] as int + 0x100_0000 * s[at + 3] as int
  }

  function Put32(v: u32): (s: seq<u8>)
    ensures |s| == 4 && Get32(s, 0) == v
  {
    Digits(v);
    [v % 0x100, v / 0x100 % 0x100, v / 0x1_0000 % 0x100, v / 0x100_0000]
  }

  /** The base-256 digits of a number. */
  lemma Digits(v: u32)
    ensures v == v % 0x100 + 0x100 * (v / 0x100 % 0x100)
                 + 0x1_0000 * (v / 0x1_0000 % 0x100) + 0x100_0000 * (v / 0x100_0000)
    ensures v / 0x100_0000 < 0x100
  {
    var w := v / 0x100;
    var x := w / 0x100;
    assert v / 0x1_0000 == x;
    assert v / 0x100_0000 == x / 0x100;
  }

  /** `s` with `bytes` copied over it from offset `at`. */
  function Patch(s: seq<u8>, at: nat, bytes: seq<u8>): (r: seq<u8>)
    requires at + |bytes| <= |s|
    ensures |r| == |s|
  {
    s[..at] + bytes + s[at + |bytes|..]
  }
}
