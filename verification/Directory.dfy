/** Directory records: their 32-byte encoding, 8.3 names, and the listing of a directory's bytes. */
module Directory {
  import opened Common
  import opened Bytes

  const RECORD_SIZE := 32
  const DOT: u8 := 0x2E
  const SPACE: u8 := 0x20
  const ARCHIVE: u8 := 0x20

  datatype DirEntry = DirEntry(name: seq<u8>, attributes: u8, firstCluster: u32, fileSize: u32)

  /** A record whose name starts with this byte is unused. */
  predicate Unused(lead: u8) { lead == 0x00 || lead == 0xE5 }

  function ParseRecord(r: seq<u8>): (e: DirEntry)
    requires |r| == RECORD_SIZE
    ensures |e.name| == 11
  {
    var low, high := Get16(r, 26), Get16(r, 20);
    DirEntry(r[..11], r[11], high as int * 0x1_0000 + low, Get32(r, 28))
  }

  // ---------- Listings ----------

  /** The entries of the used records of `bs`, in order. */
  function Listing(bs: seq<u8>): seq<DirEntry> {
    if |bs| < RECORD_SIZE then []
    else (if Unused(bs[0]) then [] else [ParseRecord(bs[..RECORD_SIZE])]) + Listing(bs[RECORD_SIZE..])
  }

  /** The first byte of record `i`. */
  function Lead(bs: seq<u8>, i: nat): u8
    requires RECORD_SIZE * i < |bs|
  {
    bs[RECORD_SIZE * i]
  }

  ghost predicate NoneUnused(bs: seq<u8>) {
    forall i: nat :: RECORD_SIZE * i < |bs| ==> !Unused(Lead(bs, i))
  }

  /** Record `j` is the first unused one. */
  ghost predicate FirstUnused(bs: seq<u8>, j: nat) {
    && RECORD_SIZE * (j + 1) <= |bs| && Unused(Lead(bs, j))
    && forall i: nat :: i < j ==> !Unused(Lead(bs, i))
  }

  lemma {:induction false} ListingAppend(xs: seq<u8>, ys: seq<u8>)
    requires |xs| % RECORD_SIZE == 0
    ensures Listing(xs + ys) == Listing(xs) + Listing(ys)
    decreases |xs|
  {
    if xs == [] {
      assert xs + ys == ys;
    } else {
      var rest := xs[RECORD_SIZE..];
      ListingAppend(rest, ys);
      CutOfSum(xs, ys, RECORD_SIZE);
      Associate(if Unused(xs[0]) then [] else [ParseRecord(xs[..RECORD_SIZE])], Listing(rest), Listing(ys));
    }
  }

  /** A byte string without unused records lists one entry per record. */
  lemma {:induction false} ListingFull(bs: seq<u8>)
    requires |bs| % RECORD_SIZE == 0 && NoneUnused(bs)
    ensures |Listing(bs)| == |bs| / RECORD_SIZE
  {
    if bs != [] {
      assert !Unused(Lead(bs, 0));
      forall i: nat | RECORD_SIZE * i < |bs[RECORD_SIZE..]| ensures !Unused(Lead(bs[RECORD_SIZE..], i)) {
        assert !Unused(Lead(bs, i + 1));
      }
      ListingFull(bs[RECORD_SIZE..]);
    }
  }

  /** The listing after `rec` is stored in the first unused record: `rec` is inserted, nothing else changes. */
  lemma ListingInsert(bs: seq<u8>, bs': seq<u8>, j: nat, rec: seq<u8>)
    requires |rec| == RECORD_SIZE && FirstReplaced(bs, bs', j, rec)
    ensures j <= |Listing(bs)|
    ensures Listing(bs')
         == if Unused(rec[0]) then Listing(bs)
            else Listing(bs)[..j] + [ParseRecord(rec)] + Listing(bs)[j..]
  {
    var at := RECORD_SIZE * j;
    UsedBefore(bs, j);
    PatchParts(bs, at, rec);
    assert bs[at..at + RECORD_SIZE][0] == Lead(bs, j);
    InsertBehind(bs[..at], bs[at..at + RECORD_SIZE], rec, bs[at + RECORD_SIZE..], j);
  }

  /** The same for the parts of the directory: `j` used records, the unused one, and the rest. */
  lemma InsertBehind(pre: seq<u8>, hole: seq<u8>, rec: seq<u8>, post: seq<u8>, j: nat)
    requires |pre| == RECORD_SIZE * j && NoneUnused(pre) && |hole| == |rec| == RECORD_SIZE && Unused(hole[0])
    ensures var was := Listing(pre + (hole + post));
            && j <= |was|
            && Listing(pre + (rec + post)) == if Unused(rec[0]) then was else was[..j] + [ParseRecord(rec)] + was[j..]
  {
    ListingFull(pre);
    ReplaceUnused(pre, hole, rec, post);
  }

  lemma UsedBefore(bs: seq<u8>, j: nat)
    requires FirstUnused(bs, j)
    ensures NoneUnused(bs[..RECORD_SIZE * j])
  {
    var pre := bs[..RECORD_SIZE * j];
    forall i: nat | RECORD_SIZE * i < |pre| ensures !Unused(Lead(pre, i)) {
      assert !Unused(Lead(bs, i));
    }
  }

  lemma PatchParts(bs: seq<u8>, at: nat, rec: seq<u8>)
    requires at + |rec| <= |bs|
    ensures bs == bs[..at] + (bs[at..at + |rec|] + bs[at + |rec|..])
    ensures Patch(bs, at, rec) == bs[..at] + (rec + bs[at + |rec|..])
  {
    assert bs[..at] + bs[at..] == bs;
    assert bs[at..] == bs[at..at + |rec|] + bs[at + |rec|..];
    Associate(bs[..at], rec, bs[at + |rec|..]);
  }

  lemma ReplaceUnused(pre: seq<u8>, hole: seq<u8>, rec: seq<u8>, post: seq<u8>)
    requires |pre| % RECORD_SIZE == 0 && |hole| == |rec| == RECORD_SIZE && Unused(hole[0])
    ensures var was, n := Listing(pre + (hole + post)), |Listing(pre)|;
            n <= |was|
            && Listing(pre + (rec + post))
            == if Unused(rec[0]) then was else was[..n] + [ParseRecord(rec)] + was[n..]
  {
    ListThree(pre, hole, post);
    ListThree(pre, rec, post);
    InsertBetween(Listing(pre), Listing(post), Listing(pre + (hole + post)));
  }

  lemma InsertBetween(xs: seq<DirEntry>, ys: seq<DirEntry>, all: seq<DirEntry>)
    requires all == xs + ([] + ys)
    ensures |xs| <= |all| && all[..|xs|] == xs && all[|xs|..] == ys
    ensures forall e :: xs + ([e] + ys) == all[..|xs|] + [e] + all[|xs|..]
  {
  }

  lemma ListOne(rec: seq<u8>)
    requires |rec| == RECORD_SIZE
    ensures Listing(rec) == if Unused(rec[0]) then [] else [ParseRecord(rec)]
  {
    assert rec[..RECORD_SIZE] == rec;
    assert rec[RECORD_SIZE..] == [];
  }

  lemma ListThree(pre: seq<u8>, rec: seq<u8>, post: seq<u8>)
    requires |pre| % RECORD_SIZE == 0 && |rec| == RECORD_SIZE
    ensures Listing(pre + (rec + post))
         == Listing(pre) + ((if Unused(rec[0]) then [] else [ParseRecord(rec)]) + Listing(post))
  {
    ListingAppend(pre, rec + post);
    ListingAppend(rec, post);
    ListOne(rec);
  }

  lemma NoneUnusedAppend(xs: seq<u8>, ys: seq<u8>)
    requires |xs| % RECORD_SIZE == 0 && NoneUnused(xs) && NoneUnused(ys)
    ensures NoneUnused(xs + ys)
  {
    forall i: nat | RECORD_SIZE * i < |xs + ys| ensures !Unused(Lead(xs + ys, i)) {
      if RECORD_SIZE * i < |xs| {
        assert !Unused(Lead(xs, i));
      } else {
        assert !Unused(Lead(ys, i - |xs| / RECORD_SIZE));
      }
    }
  }

  /** `bs'` is `bs` with `rec` stored in record `j`, the first unused one. */
  ghost predicate FirstReplaced(bs: seq<u8>, bs': seq<u8>, j: nat, rec: seq<u8>)
    requires |rec| == RECORD_SIZE
  {
    FirstUnused(bs, j) && bs' == Patch(bs, RECORD_SIZE * j, rec)
  }

  lemma ReplacedHadRoom(bs: seq<u8>, bs': seq<u8>, j: nat, rec: seq<u8>)
    requires |rec| == RECORD_SIZE && FirstReplaced(bs, bs', j, rec)
    ensures !NoneUnused(bs)
  {
    assert Unused(Lead(bs, j));
  }

  /** Replacing in a middle part replaces overall when the front part has no unused record. */
  lemma ReplacedWithin(xs: seq<u8>, ys: seq<u8>, ys': seq<u8>, zs: seq<u8>, j: nat, rec: seq<u8>)
    requires |xs| % RECORD_SIZE == 0 && |rec| == RECORD_SIZE
    requires NoneUnused(xs) && FirstReplaced(ys, ys', j, rec)
    ensures FirstReplaced(xs + ys + zs, xs + ys' + zs, |xs| / RECORD_SIZE + j, rec)
  {
    var n, all := |xs| / RECORD_SIZE, xs + ys + zs;
    assert Lead(all, n + j) == Lead(ys, j);
    forall i: nat | i < n + j ensures !Unused(Lead(all, i)) {
      if i < n {
        assert !Unused(Lead(xs, i));
      } else {
        assert !Unused(Lead(ys, i - n));
      }
    }
  }

  // ---------- New records ----------

  /** The position of the first dot, or the length if there is none. */
  function DotIndex(s: seq<u8>): (i: nat)
    ensures i <= |s| && DOT !in s[..i] && (i < |s| ==> s[i] == DOT)
  {
    if s == [] || s[0] == DOT then 0
    else
      var i := DotIndex(s[1..]) + 1;
      assert s[..i] == [s[0]] + s[1..][..i - 1];
      i
  }

  /** The first part of the name split at dots. */
  function BaseName(name: seq<u8>): seq<u8> { name[..DotIndex(name)] }

  /** What follows the first dot. */
  function AfterDot(name: seq<u8>): seq<u8> {
    if DotIndex(name) < |name| then name[DotIndex(name) + 1..] else []
  }

  /** The second part of the name split at dots, if any. */
  function Extension(name: seq<u8>): seq<u8> { AfterDot(name)[..DotIndex(AfterDot(name))] }

  function Spaces(n: nat): seq<u8> { seq(n, _ => SPACE) }

  function Zeros(n: nat): seq<u8> { seq(n, _ => 0) }

  /** `s` cut or space-padded to exactly `n` bytes. */
  function Padded(s: seq<u8>, n: nat): (r: seq<u8>)
    ensures |r| == n
  {
    if |s| >= n then s[..n] else s + Spaces(n - |s|)
  }

  /** The record of a new file. */
  function NewRecord(name: seq<u8>, firstCluster: u32, size: u32): (r: seq<u8>)
    ensures |r| == RECORD_SIZE
  {
    Padded(BaseName(name), 8) + Padded(Extension(name), 3) + [ARCHIVE] + Zeros(8)
    + Put16(firstCluster / 0x1_0000) + Zeros(4) + Put16(firstCluster % 0x1_0000) + Put32(size)
  }

  /** Listing a new record recovers the cluster and the size it was made from. */
  lemma NewRecordParses(name: seq<u8>, firstCluster: u32, size: u32)
    ensures ParseRecord(NewRecord(name, firstCluster, size))
         == DirEntry(Padded(BaseName(name), 8) + Padded(Extension(name), 3), ARCHIVE, firstCluster, size)
  {
    var r := NewRecord(name, firstCluster, size);
    var high, low, len := Put16(firstCluster / 0x1_0000), Put16(firstCluster % 0x1_0000), Put32(size);
    assert r[20] == high[0] && r[21] == high[1];
    assert r[26] == low[0] && r[27] == low[1];
    assert r[28] == len[0] && r[29] == len[1] && r[30] == len[2] && r[31] == len[3];
    assert r[11] == ARCHIVE;
    assert r[..11] == Padded(BaseName(name), 8) + Padded(Extension(name), 3);
  }

  /** The record is listed unless the name starts with a byte that marks unused records. */
  lemma NewRecordLead(name: seq<u8>, firstCluster: u32, size: u32)
    ensures Unused(NewRecord(name, firstCluster, size)[0]) <==> name != [] && Unused(name[0])
  {
    var base := BaseName(name);
    assert NewRecord(name, firstCluster, size)[0] == Padded(base, 8)[0];
    if base != [] {
      assert base[0] == name[0];
    }
  }

  /** Byte `k` of a field of a name that is space-padded to its width. */
  function PaddedByte(part: seq<u8>, k: nat): u8 { if k < |part| then part[k] else 0x20 }

  /** Every byte of the record of a new file. */
  lemma NewRecordBytes(name: seq<u8>, firstCluster: u32, size: u32, k: nat)
    requires k < 32
    ensures NewRecord(name, firstCluster, size)[k]
            == if k < 8 then PaddedByte(BaseName(name), k)
               else if k < 11 then PaddedByte(Extension(name), k - 8)
               else if k == 11 then 0x20
               else if k == 20 then firstCluster / 0x1_0000 % 0x100
               else if k == 21 then firstCluster / 0x100_0000
               else if k == 26 then firstCluster % 0x100
               else if k == 27 then firstCluster / 0x100 % 0x100
               else if k == 28 then size % 0x100
               else if k == 29 then size / 0x100 % 0x100
               else if k == 30 then size / 0x1_0000 % 0x100
               else if k == 31 then size / 0x100_0000
               else 0
  {
    ClusterBytes(firstCluster);
    var base, ext := Padded(BaseName(name), 8), Padded(Extension(name), 3);
    var high, low, len := Put16(firstCluster / 0x1_0000), Put16(firstCluster % 0x1_0000), Put32(size);
    FieldsAt(base, ext, high, low, len, k);
  }

  lemma ClusterBytes(c: u32)
    ensures c / 0x1_0000 / 0x100 == c / 0x100_0000 && c % 0x1_0000 % 0x100 == c % 0x100
    ensures c % 0x1_0000 / 0x100 == c / 0x100 % 0x100
  {
    Digits(c);
  }

  /** The positions of the fields of a record. */
  lemma FieldsAt(base: seq<u8>, ext: seq<u8>, high: seq<u8>, low: seq<u8>, len: seq<u8>, k: nat)
    requires |base| == 8 && |ext| == 3 && |high| == |low| == 2 && |len| == 4 && k < 32
    ensures (base + ext + [ARCHIVE] + Zeros(8) + high + Zeros(4) + low + len)[k]
            == if k < 8 then base[k] else if k < 11 then ext[k - 8] else if k == 11 then 0x20
               else if 20 <= k < 22 then high[k - 20] else if 26 <= k < 28 then low[k - 26]
               else if 28 <= k then len[k - 28] else 0
  {
  }

  /** The base is what stands before the first dot, the extension what stands between it and the next one. */
  lemma NameParts(name: seq<u8>) returns (rest: seq<u8>)
    ensures 0x2E !in BaseName(name) && 0x2E !in Extension(name)
    ensures 0x2E !in name ==> BaseName(name) == name && Extension(name) == []
    ensures 0x2E in name ==> name == BaseName(name) + [0x2E] + Extension(name) + rest && (rest == [] || rest[0] == 0x2E)
  {
    var after := AfterDot(name);
    rest := after[DotIndex(after)..];
    CutAtDot(name);
    CutAtDot(after);
    if 0x2E in name {
      BehindDot(name);
      Associate(BaseName(name) + [0x2E], Extension(name), rest);
    }
  }

  lemma CutAtDot(s: seq<u8>)
    ensures 0x2E !in s[..DotIndex(s)] && (0x2E in s <==> DotIndex(s) < |s|)
    ensures s == s[..DotIndex(s)] + s[DotIndex(s)..]
    ensures DotIndex(s) < |s| ==> s[DotIndex(s)] == 0x2E
  {
    var i := DotIndex(s);
    CutOfWhole(s, i);
    TakeAll(s);
  }

  lemma BehindDot(name: seq<u8>)
    requires DotIndex(name) < |name|
    ensures name == BaseName(name) + [0x2E] + AfterDot(name)
  {
    CutAround(name, DotIndex(name));
  }

  method CreateDirEntry(name: seq<u8>, firstCluster: u32, size: u32) returns (r: seq<u8>)
    ensures r == NewRecord(name, firstCluster, size)
  {
    var entry := new u8[RECORD_SIZE](_ => 0);
    FillField(entry, 0, 8, BaseName(name));
    FillField(entry, 8, 3, Extension(name));
    ghost var base, ext := Padded(BaseName(name), 8), Padded(Extension(name), 3);
    assert forall k :: 0 <= k < 8 ==> entry[k] == entry[0..8][k] == base[k];
    assert forall k :: 0 <= k < 3 ==> entry[8 + k] == entry[8..11][k] == ext[k];
    FillNumbers(entry, firstCluster, size);
    r := entry[..];
    RecordFields(r, base, ext, Put16(firstCluster / 0x1_0000), Put16(firstCluster % 0x1_0000), Put32(size));
  }

  /** Writes the attribute, cluster and size fields. */
  method FillNumbers(entry: array<u8>, firstCluster: u32, size: u32)
    requires entry.Length == RECORD_SIZE
    modifies entry
    ensures forall k :: 0 <= k < 11 || 12 <= k < 20 || 22 <= k < 26 ==> entry[k] == old(entry[k])
    ensures entry[11] == ARCHIVE
    ensures var high := Put16(firstCluster / 0x1_0000); entry[20] == high[0] && entry[21] == high[1]
    ensures var low := Put16(firstCluster % 0x1_0000); entry[26] == low[0] && entry[27] == low[1]
    ensures var len := Put32(size);
            entry[28] == len[0] && entry[29] == len[1] && entry[30] == len[2] && entry[31] == len[3]
  {
    var high, low, len := Put16(firstCluster / 0x1_0000), Put16(firstCluster % 0x1_0000), Put32(size);
    entry[11] := ARCHIVE;
    entry[20], entry[21] := high[0], high[1];
    entry[26], entry[27] := low[0], low[1];
    entry[28], entry[29], entry[30], entry[31] := len[0], len[1], len[2], len[3];
  }

  /** A record is determined by its fields; the bytes between them are zero. */
  lemma RecordFields(r: seq<u8>, base: seq<u8>, ext: seq<u8>, high: seq<u8>, low: seq<u8>, len: seq<u8>)
    requires |r| == RECORD_SIZE && |base| == 8 && |ext| == 3 && |high| == |low| == 2 && |len| == 4
    requires forall k :: 0 <= k < 8 ==> r[k] == base[k]
    requires forall k :: 0 <= k < 3 ==> r[8 + k] == ext[k]
    requires forall k :: 12 <= k < 20 || 22 <= k < 26 ==> r[k] == 0
    requires r[11] == ARCHIVE && r[20] == high[0] && r[21] == high[1] && r[26] == low[0] && r[27] == low[1]
    requires r[28] == len[0] && r[29] == len[1] && r[30] == len[2] && r[31] == len[3]
    ensures r == base + ext + [ARCHIVE] + Zeros(8) + high + Zeros(4) + low + len
  {
  }

  /** Writes `s`, cut or space-padded to `width` bytes, at offset `at`. */
  method FillField(entry: array<u8>, at: nat, width: nat, s: seq<u8>)
    requires at + width <= entry.Length
    modifies entry
    ensures entry[at..at + width] == Padded(s, width)
    ensures forall k :: 0 <= k < entry.Length && !(at <= k < at + width) ==> entry[k] == old(entry[k])
  {
    var n := if |s| < width then |s| else width;
    for i := 0 to n
      invariant forall k :: 0 <= k < i ==> entry[at + k] == s[k]
      invariant forall k :: 0 <= k < entry.Length && !(at <= k < at + width) ==> entry[k] == old(entry[k])
    {
      entry[at + i] := s[i];
    }
    for i := n to width
      invariant forall k :: 0 <= k < i ==> entry[at + k] == Padded(s, width)[k]
      invariant forall k :: 0 <= k < entry.Length && !(at <= k < at + width) ==> entry[k] == old(entry[k])
    {
      entry[at + i] := SPACE;
    }
  }

  // ---------- Displayed names ----------

  predicate Blank(x: u8) { x == SPACE || x == 0 }

  /** `s` without its blanks. */
  function Strip(s: seq<u8>): (r: seq<u8>)
    ensures |r| <= |s|
  {
    if s == [] then []
    else Strip(s[..|s| - 1]) + if Blank(s[|s| - 1]) then [] else [s[|s| - 1]]
  }

  /** The characters of the displayed name, by code point: one for each byte that is not blank. */
  method GetName(e: DirEntry) returns (shown: seq<u8>)
    requires |e.name| == 11
    ensures shown == ShownName(e)
  {
    shown := [];
    for i := 0 to 8
      invariant shown == Strip(e.name[0..i])
    {
      StripNext(e.name, 0, i);
      if !Blank(e.name[i]) {
        shown := shown + [e.name[i]];
      }
    }
    assert e.name[0..8] == e.name[..8];
    shown := shown + [DOT];
    ghost var base := shown;
    for i := 8 to 11
      invariant shown == base + Strip(e.name[8..i])
    {
      StripNext(e.name, 8, i);
      if !Blank(e.name[i]) {
        shown := shown + [e.name[i]];
      }
    }
    assert e.name[8..11] == e.name[8..];
  }

  function ShownName(e: DirEntry): seq<u8>
    requires |e.name| == 11
  {
    Strip(e.name[..8]) + [DOT] + Strip(e.name[8..])
  }

  /** Shown are all bytes of a field but spaces and zeros, in their order. */
  lemma {:induction false} ShownBytes(xs: seq<u8>, x: u8, ys: seq<u8>)
    ensures Strip([]) == []
    ensures Strip(xs + [x] + ys) == Strip(xs) + (if x == 0x20 || x == 0x00 then [] else [x]) + Strip(ys)
    decreases |ys|
  {
    if ys == [] {
      StripSnoc(xs, x);
      assert xs + [x] + ys == xs + [x];
    } else {
      var init, last := ys[..|ys| - 1], ys[|ys| - 1];
      ShownBytes(xs, x, init);
      InitOfSum(xs + [x], ys);
      Associate(Strip(xs) + if Blank(x) then [] else [x], Strip(init), if Blank(last) then [] else [last]);
    }
  }

  lemma StripSnoc(s: seq<u8>, x: u8)
    ensures Strip(s + [x]) == Strip(s) + if Blank(x) then [] else [x]
  {
    assert (s + [x])[..|s|] == s;
  }

  lemma StripNext(s: seq<u8>, from: nat, i: nat)
    requires from <= i < |s|
    ensures Strip(s[from..i + 1]) == Strip(s[from..i]) + if Blank(s[i]) then [] else [s[i]]
  {
    assert s[from..i + 1] == s[from..i] + [s[i]];
    StripSnoc(s[from..i], s[i]);
  }

  lemma {:induction false} StripMembers(s: seq<u8>, x: u8)
    ensures x in Strip(s) <==> x in s && !Blank(x)
  {
    if s != [] {
      StripMembers(s[..|s| - 1], x);
      assert s == s[..|s| - 1] + [s[|s| - 1]];
    }
  }

  lemma {:induction false} StripPadded(s: seq<u8>, n: nat)
    requires |s| <= n
    ensures Strip(Padded(s, n)) == Strip(s)
    decreases n
  {
    if |s| == n {
      assert Padded(s, n) == s;
    } else {
      StripPadded(s, n - 1);
      assert Padded(s, n) == Padded(s, n - 1) + [SPACE];
      StripSnoc(Padded(s, n - 1), SPACE);
    }
  }

  lemma {:induction false} StripKeepsAll(s: seq<u8>)
    requires forall x :: x in s ==> !Blank(x)
    ensures Strip(s) == s
  {
    if s != [] {
      assert s == s[..|s| - 1] + [s[|s| - 1]];
      StripKeepsAll(s[..|s| - 1]);
    }
  }

  lemma DotFreeWhole(s: seq<u8>)
    requires DOT !in s
    ensures DotIndex(s) == |s|
  {
  }

  lemma PaddedHas(s: seq<u8>, n: nat, x: u8)
    requires x !in s && x != SPACE
    ensures x !in Padded(s, n)
  {
  }

  lemma {:induction false} DotIndexSplit(xs: seq<u8>, ys: seq<u8>)
    requires DOT !in xs
    ensures DotIndex(xs + [DOT] + ys) == |xs| && AfterDot(xs + [DOT] + ys) == ys
  {
    if xs != [] {
      DotIndexSplit(xs[1..], ys);
      assert (xs + [DOT] + ys)[1..] == xs[1..] + [DOT] + ys;
    }
  }
}
