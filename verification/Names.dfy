/** File names: which of them a directory shows as they were given. */
module Names {
  import opened Common
  import opened Bytes
  import opened Directory

  /** The UTF-8 bytes of the string of characters with the given code points, all below 256. */
  function Utf8(codes: seq<u8>): (s: seq<u8>)
    ensures |s| >= |codes|
  {
    if codes == [] then [] else Utf8(codes[..|codes| - 1]) + Encoded(codes[|codes| - 1])
  }

  function Encoded(code: u8): (s: seq<u8>)
    ensures 1 <= |s| <= 2
  {
    if code < 0x80 then [code] else [0xC0 + code / 64, 0x80 + code % 64]
  }

  /** The encoding is that of UTF-8 for code points below 256: one byte, or a lead byte and six low bits. */
  lemma EncodedDecodes(code: u8)
    ensures var s := Encoded(code);
            if code < 0x80 then s == [code]
            else
              && |s| == 2 && 0xC2 <= s[0] <= 0xC3 && 0x80 <= s[1] <= 0xBF
              && code == (s[0] - 0xC0) * 0x40 + (s[1] - 0x80)
  {
  }

  predicate Ascii(s: seq<u8>) { forall i :: 0 <= i < |s| ==> s[i] < 0x80 }

  predicate NoBlanks(s: seq<u8>) { SPACE !in s && 0 !in s }

  /** A name with exactly one dot. */
  predicate OneDot(name: seq<u8>) { DotIndex(name) < |name| && DOT !in AfterDot(name) }

  /** A name of the form BASE.EXT that fits the 8.3 fields and has no blanks. */
  predicate ShortName(name: seq<u8>) {
    OneDot(name) && |BaseName(name)| <= 8 && |AfterDot(name)| <= 3 && NoBlanks(name)
  }

  /** The `k`-th byte of the one byte string, starting with a byte above 0x7F, that encodes its own first half. */
  function SelfByte(k: nat): (x: u8)
    ensures x >= 0x80
  {
    if k == 0 then 0xC3 else if k % 2 == 0 then 0xC0 + SelfByte(k / 2) / 64 else 0x80 + SelfByte(k / 2) % 64
  }

  function SelfEncoding(n: nat): (s: seq<u8>)
    ensures |s| == n
  {
    seq(n, k requires 0 <= k < n => SelfByte(k))
  }

  /** A part of a name that is cut to `n` bytes and shown as itself all the same, because the cut encodes the whole. */
  predicate CutShown(s: seq<u8>, n: nat) {
    && n < |s| <= 2 * n && Ascii(s[..2 * n - |s|])
    && s[2 * n - |s|..] == SelfEncoding(2 * (|s| - n))
  }

  /** A part of a name that an `n`-byte field shows as it is. */
  predicate PartShown(s: seq<u8>, n: nat) {
    NoBlanks(s) && ((Ascii(s) && |s| <= n) || CutShown(s, n))
  }

  function Display(name: seq<u8>): seq<u8> {
    Strip(Padded(BaseName(name), 8)) + [DOT] + Strip(Padded(Extension(name), 3))
  }

  /**
   A new file is displayed under the name it was created with if and only if the name has exactly
   one dot and its two parts are shown as they are. Each byte of the record is shown as one
   character, so bytes above 0x7F come out as two.
   */
  lemma NameRecovered(name: seq<u8>, firstCluster: u32, size: u32)
    ensures Utf8(ShownName(ParseRecord(NewRecord(name, firstCluster, size)))) == name
            <==> OneDot(name) && PartShown(BaseName(name), 8) && PartShown(AfterDot(name), 3)
  {
    ShownIsDisplay(name, firstCluster, size);
    DisplayIff(name);
  }

  lemma ShownIsDisplay(name: seq<u8>, firstCluster: u32, size: u32)
    ensures ShownName(ParseRecord(NewRecord(name, firstCluster, size))) == Display(name)
  {
    NewRecordParses(name, firstCluster, size);
    var e := ParseRecord(NewRecord(name, firstCluster, size));
    assert e.name[..8] == Padded(BaseName(name), 8) && e.name[8..] == Padded(Extension(name), 3);
  }

  lemma DisplayIff(name: seq<u8>)
    ensures Utf8(Display(name)) == name
            <==> OneDot(name) && PartShown(BaseName(name), 8) && PartShown(AfterDot(name), 3)
  {
    SplitShown(name);
    ShownPart(BaseName(name), 8);
    if OneDot(name) {
      ShownPart(AfterDot(name), 3);
    }
  }

  /** A name is shown as it is if and only if it has one dot and both parts are. */
  lemma SplitShown(name: seq<u8>)
    ensures Utf8(Display(name)) == name <==>
            && OneDot(name) && Utf8(Strip(Padded(BaseName(name), 8))) == BaseName(name)
            && Utf8(Strip(Padded(AfterDot(name), 3))) == AfterDot(name)
  {
    var xs, ys := Strip(Padded(BaseName(name), 8)), Strip(Padded(Extension(name), 3));
    Utf8Three(xs, ys);
    NoDotShown(BaseName(name), 8);
    NoDotShown(Extension(name), 3);
    Unsplit(name, Utf8(xs), Utf8(ys));
    if OneDot(name) {
      WholeExtension(name);
    }
  }

  lemma WholeExtension(name: seq<u8>)
    requires OneDot(name)
    ensures Extension(name) == AfterDot(name)
  {
    DotFreeWhole(AfterDot(name));
  }

  lemma Unsplit(name: seq<u8>, xs: seq<u8>, ys: seq<u8>)
    requires DOT !in xs && DOT !in ys
    ensures name == xs + [DOT] + ys <==> OneDot(name) && BaseName(name) == xs && AfterDot(name) == ys
  {
    if name == xs + [DOT] + ys {
      DotIndexSplit(xs, ys);
    } else if OneDot(name) {
      assert name == BaseName(name) + [DOT] + AfterDot(name);
    }
  }

  lemma Utf8Three(xs: seq<u8>, ys: seq<u8>)
    ensures Utf8(xs + [DOT] + ys) == Utf8(xs) + [DOT] + Utf8(ys)
  {
    Utf8Append(xs + [DOT], ys);
    assert (xs + [DOT])[..|xs|] == xs;
  }

  lemma {:induction false} Utf8Append(xs: seq<u8>, ys: seq<u8>)
    ensures Utf8(xs + ys) == Utf8(xs) + Utf8(ys)
    decreases |ys|
  {
    if ys == [] {
      assert xs + ys == xs;
    } else {
      var init, last := ys[..|ys| - 1], ys[|ys| - 1];
      Utf8Append(xs, init);
      InitOfSum(xs, ys);
      Associate(Utf8(xs), Utf8(init), Encoded(last));
    }
  }

  lemma Utf8Snoc(s: seq<u8>, x: u8)
    ensures Utf8(s + [x]) == Utf8(s) + Encoded(x)
  {
    assert (s + [x])[..|s|] == s;
  }

  lemma NoDotShown(s: seq<u8>, n: nat)
    requires DOT !in s
    ensures DOT !in Utf8(Strip(Padded(s, n)))
  {
    PaddedHas(s, n, DOT);
    StripMembers(Padded(s, n), DOT);
    Utf8Has(Strip(Padded(s, n)), DOT);
  }

  /** When a part of a name is shown as it is. */
  lemma ShownPart(s: seq<u8>, n: nat)
    ensures Utf8(Strip(Padded(s, n))) == s <==> PartShown(s, n)
  {
    var t := Strip(Padded(s, n));
    if Utf8(t) == s {
      StripMembers(Padded(s, n), SPACE);
      StripMembers(Padded(s, n), 0);
      Utf8Has(t, SPACE);
      Utf8Has(t, 0);
    }
    if NoBlanks(s) {
      KeptPrefix(s, n);
      EncodesItself(s, n);
    }
  }

  lemma {:induction false} Utf8Has(codes: seq<u8>, x: u8)
    requires x < 0x80
    ensures x in Utf8(codes) <==> x in codes
  {
    if codes != [] {
      var init := codes[..|codes| - 1];
      Utf8Has(init, x);
      assert codes == init + [codes[|codes| - 1]];
    }
  }

  lemma KeptPrefix(s: seq<u8>, n: nat)
    requires NoBlanks(s)
    ensures Strip(Padded(s, n)) == s[..if |s| < n then |s| else n]
  {
    if |s| <= n {
      StripPadded(s, n);
      StripKeepsAll(s);
      assert s[..|s|] == s;
    } else {
      StripKeepsAll(s[..n]);
    }
  }

  /** The bytes that encode their own first `n` bytes, or themselves if they are no more. */
  lemma EncodesItself(s: seq<u8>, n: nat)
    ensures Utf8(s[..if |s| < n then |s| else n]) == s <==> (Ascii(s) && |s| <= n) || CutShown(s, n)
  {
    if |s| <= n {
      assert s[..|s|] == s;
      Utf8Ascii(s);
    } else {
      if Utf8(s[..n]) == s {
        EncodesCut(s, n);
      }
      if CutShown(s, n) {
        CutEncodes(s, n);
      }
    }
  }

  /** Only ASCII bytes encode themselves. */
  lemma {:induction false} Utf8Ascii(s: seq<u8>)
    ensures |Utf8(s)| == |s| <==> Ascii(s)
    ensures Ascii(s) ==> Utf8(s) == s
  {
    if s != [] {
      var init := s[..|s| - 1];
      Utf8Ascii(init);
      assert s == init + [s[|s| - 1]];
      assert Ascii(s) <==> Ascii(init) && s[|s| - 1] < 0x80;
    }
  }

  lemma {:induction false} Utf8SelfEncoding(m: nat)
    ensures Utf8(SelfEncoding(m)) == SelfEncoding(2 * m)
  {
    if m > 0 {
      Utf8SelfEncoding(m - 1);
      OneMore(m - 1);
      TwoMore(m - 1);
    }
  }

  lemma OneMore(k: nat)
    ensures Utf8(SelfEncoding(k + 1)) == Utf8(SelfEncoding(k)) + Encoded(SelfByte(k))
  {
    assert SelfEncoding(k + 1) == SelfEncoding(k) + [SelfByte(k)];
    Utf8Snoc(SelfEncoding(k), SelfByte(k));
  }

  lemma TwoMore(k: nat)
    ensures SelfEncoding(2 * k + 2) == SelfEncoding(2 * k) + Encoded(SelfByte(k))
  {
    EncodedSelf(k);
  }

  lemma EncodedSelf(k: nat)
    ensures Encoded(SelfByte(k)) == [SelfByte(2 * k), SelfByte(2 * k + 1)]
  {
    assert (2 * k + 1) / 2 == k && (2 * k + 1) % 2 == 1;
    if k > 0 {
      assert (2 * k) / 2 == k && (2 * k) % 2 == 0;
    }
  }

  lemma CutEncodes(s: seq<u8>, n: nat)
    requires CutShown(s, n)
    ensures Utf8(s[..n]) == s
  {
    var a, m := 2 * n - |s|, |s| - n;
    SelfEncodingPrefix(2 * m, m);
    assert s[..n] == s[..a] + SelfEncoding(m) by {
      assert s == s[..a] + SelfEncoding(2 * m);
    }
    Utf8Append(s[..a], SelfEncoding(m));
    Utf8Ascii(s[..a]);
    Utf8SelfEncoding(m);
  }

  lemma SelfEncodingPrefix(n: nat, m: nat)
    requires m <= n
    ensures SelfEncoding(n)[..m] == SelfEncoding(m)
  {
  }

  /** Up to its first byte above 0x7F such a string is ASCII; from there on it is determined. */
  lemma EncodesCut(s: seq<u8>, n: nat)
    requires n < |s| && Utf8(s[..n]) == s
    ensures CutShown(s, n)
  {
    var a := HighAt(s, n);
    SliceOfPrefix(s, n, a);
    SameTail(s, s[..n], a);
    CutFrom(s, n, a);
  }

  lemma SliceOfPrefix(s: seq<u8>, n: nat, a: nat)
    requires a <= n <= |s|
    ensures s[..n][a..] == s[a..][..n - a] && s[..n][..a] == s[..a]
  {
  }

  lemma CutFrom(s: seq<u8>, n: nat, a: nat)
    requires a < n < |s| && Ascii(s[..a]) && s[a] >= 0x80 && s[a..] == Utf8(s[a..][..n - a])
    ensures CutShown(s, n)
  {
    var w, m := s[a..], n - a;
    Determined(w, m, m);
    Utf8SelfEncoding(m);
  }

  /** A string that encodes a proper part of it has a byte above 0x7F there. */
  lemma HighAt(s: seq<u8>, n: nat) returns (a: nat)
    requires n < |s| && Utf8(s[..n]) == s
    ensures a < n && Ascii(s[..a]) && s[a] >= 0x80
  {
    var t := s[..n];
    a := FirstHigh(t);
    assert t[..a] == s[..a];
    assert a == n ==> t[..a] == t;
    Utf8Ascii(t);
  }

  lemma SameTail(s: seq<u8>, t: seq<u8>, a: nat)
    requires a <= |t| && s == Utf8(t) && Ascii(t[..a])
    ensures a <= |s| && s[a..] == Utf8(t[a..])
  {
    Utf8Split(t, a);
    Utf8Ascii(t[..a]);
    DropFront(s, t[..a], Utf8(t[a..]));
  }

  lemma Utf8Split(t: seq<u8>, a: nat)
    requires a <= |t|
    ensures Utf8(t) == Utf8(t[..a]) + Utf8(t[a..])
  {
    assert t == t[..a] + t[a..];
    Utf8Append(t[..a], t[a..]);
  }

  lemma DropFront(s: seq<u8>, xs: seq<u8>, ys: seq<u8>)
    requires s == xs + ys
    ensures s[|xs|..] == ys
  {
  }

  function FirstHigh(s: seq<u8>): (i: nat)
    ensures i <= |s| && Ascii(s[..i]) && (i < |s| ==> s[i] >= 0x80)
  {
    if s == [] || s[0] >= 0x80 then 0
    else
      var i := FirstHigh(s[1..]) + 1;
      assert s[..i] == [s[0]] + s[1..][..i - 1];
      i
  }

  lemma {:induction false} Determined(w: seq<u8>, m: nat, j: nat)
    requires 0 < j <= m <= |w| && w == Utf8(w[..m]) && w[0] >= 0x80
    ensures w[..j] == SelfEncoding(j)
    decreases j
  {
    var i := j - 1;
    assert w[..j] == w[..i] + [w[i]];
    if i == 0 {
      FirstDetermined(w, m);
    } else {
      Determined(w, m, i);
      NextDetermined(w, m, i);
    }
  }

  lemma NextDetermined(w: seq<u8>, m: nat, i: nat)
    requires 0 < i < m <= |w| && w == Utf8(w[..m]) && w[..i] == SelfEncoding(i)
    ensures w[i] == SelfByte(i)
  {
    Utf8SelfEncoding(i);
    EncodedPrefix(w, m, i);
    SelfEncodingAt(2 * i, i);
  }

  lemma FirstDetermined(w: seq<u8>, m: nat)
    requires 0 < m <= |w| && w == Utf8(w[..m]) && w[0] >= 0x80
    ensures w[0] == SelfByte(0)
  {
    EncodedPrefix(w, m, 1);
    assert w[..1] == [w[0]];
    Utf8One(w[0]);
  }

  lemma Utf8One(x: u8)
    ensures Utf8([x]) == Encoded(x)
  {
    assert [x][..0] == [];
  }

  lemma EncodedPrefix(w: seq<u8>, m: nat, i: nat)
    requires i <= m <= |w| && w == Utf8(w[..m])
    ensures Utf8(w[..i]) <= w
  {
    Utf8Split(w[..m], i);
    assert w[..m][..i] == w[..i];
  }

  lemma SelfEncodingAt(n: nat, k: nat)
    requires k < n
    ensures SelfEncoding(n)[k] == SelfByte(k)
  {
  }

  /** For ASCII names the condition is the familiar one. */
  lemma AsciiRecovered(name: seq<u8>, firstCluster: u32, size: u32)
    requires Ascii(name)
    ensures Utf8(ShownName(ParseRecord(NewRecord(name, firstCluster, size)))) == name <==> ShortName(name)
  {
    NameRecovered(name, firstCluster, size);
    if OneDot(name) {
      Parts(name);
      NotCut(BaseName(name), 8);
      NotCut(AfterDot(name), 3);
    }
  }

  /** A name whose parts fit the fields is recovered if and only if it is a short name in ASCII. */
  lemma FittingRecovered(name: seq<u8>, firstCluster: u32, size: u32)
    requires |BaseName(name)| <= 8 && |AfterDot(name)| <= 3
    ensures Utf8(ShownName(ParseRecord(NewRecord(name, firstCluster, size)))) == name
            <==> ShortName(name) && Ascii(name)
  {
    NameRecovered(name, firstCluster, size);
    if OneDot(name) {
      Parts(name);
    }
  }

  lemma NotCut(s: seq<u8>, n: nat)
    requires Ascii(s)
    ensures !CutShown(s, n)
  {
    if CutShown(s, n) {
      CutHasHigh(s, n);
    }
  }

  lemma CutHasHigh(s: seq<u8>, n: nat)
    requires CutShown(s, n)
    ensures !Ascii(s)
  {
    var a, m := 2 * n - |s|, |s| - n;
    SelfEncodingAt(2 * m, 0);
    assert s[a] == s[a..][0];
  }

  lemma Parts(name: seq<u8>)
    requires OneDot(name)
    ensures NoBlanks(name) <==> NoBlanks(BaseName(name)) && NoBlanks(AfterDot(name))
    ensures Ascii(name) <==> Ascii(BaseName(name)) && Ascii(AfterDot(name))
  {
    assert name == BaseName(name) + [DOT] + AfterDot(name);
  }

  /** "é.TXT", a short name, is shown as "Ã©.TXT". */
  lemma AccentLost(firstCluster: u32, size: u32)
    ensures var name := [0xC3, 0xA9, DOT, 0x54, 0x58, 0x54];
            ShortName(name) && Utf8(ShownName(ParseRecord(NewRecord(name, firstCluster, size)))) != name
  {
    var name: seq<u8> := [0xC3, 0xA9, DOT, 0x54, 0x58, 0x54];
    var base: seq<u8>, ext: seq<u8> := [0xC3, 0xA9], [0x54, 0x58, 0x54];
    assert name == base + [DOT] + ext;
    DotIndexSplit(base, ext);
    assert name[0] >= 0x80;
    FittingRecovered(name, firstCluster, size);
  }

  /** The other way round, "A.Ã\u{83}Â" is no short name and is shown as it is. */
  lemma CutNameKept(firstCluster: u32, size: u32)
    ensures var name := [0x41, DOT, 0xC3, 0x83, 0xC2, 0x83, 0xC3, 0x82];
            !ShortName(name) && Utf8(ShownName(ParseRecord(NewRecord(name, firstCluster, size)))) == name
  {
    var name: seq<u8> := [0x41, DOT, 0xC3, 0x83, 0xC2, 0x83, 0xC3, 0x82];
    CutNameDisplayed(name);
    ShownIsDisplay(name, firstCluster, size);
  }

  lemma CutNameDisplayed(name: seq<u8>)
    requires name == [0x41, DOT, 0xC3, 0x83, 0xC2, 0x83, 0xC3, 0x82]
    ensures !ShortName(name) && Utf8(Display(name)) == name
  {
    var base: seq<u8>, ext: seq<u8> := [0x41], [0xC3, 0x83, 0xC2, 0x83, 0xC3, 0x82];
    CutExtension(ext);
    assert PartShown(base, 8);
    PartsKept(name, base, ext);
  }

  lemma CutExtension(ext: seq<u8>)
    requires ext == [0xC3, 0x83, 0xC2, 0x83, 0xC3, 0x82]
    ensures PartShown(ext, 3)
  {
    SixBytes();
    assert ext[..0] == [] && ext[0..] == ext;
  }

  lemma PartsKept(name: seq<u8>, base: seq<u8>, ext: seq<u8>)
    requires name == base + [DOT] + ext && DOT !in base && DOT !in ext && PartShown(base, 8) && PartShown(ext, 3)
    ensures Utf8(Display(name)) == name && BaseName(name) == base && AfterDot(name) == ext
  {
    Unsplit(name, base, ext);
    DisplayIff(name);
  }

  lemma SixBytes()
    ensures SelfEncoding(6) == [0xC3, 0x83, 0xC2, 0x83, 0xC3, 0x82]
  {
    assert SelfByte(0) == 0xC3 && SelfByte(1) == 0x83;
    assert SelfByte(2) == 0xC2 && SelfByte(3) == 0x83;
    assert SelfByte(4) == 0xC3 && SelfByte(5) == 0x82;
  }
}
