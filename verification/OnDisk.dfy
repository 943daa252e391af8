/**
  The formats on disk, in bytes and numbers: table entries, end marks, long and short directory
  entries, as Microsoft's "FAT: General Overview of On-Disk Format", version 1.03, gives them.
 */
module OnDisk {
  import opened Prelude
  import opened Words
  import opened FatEntry
  import opened FatChain
  import opened FatVolume
  import opened LongName
  import opened Directory
  import opened FatStore

  // ----- Table entries -----

  /** Two 12-bit entries share three bytes. */
  lemma Entries12(b: seq<Byte>, k: nat)
    requires 3 * k + 3 <= |b|
    ensures InTable(Fat12, b, 2 * k) && InTable(Fat12, b, 2 * k + 1)
    ensures GetEntry(Fat12, b, 2 * k) == b[3 * k] as nat + 0x100 * (b[3 * k + 1] as nat % 0x10)
    ensures GetEntry(Fat12, b, 2 * k + 1) == b[3 * k + 1] as nat / 0x10 + 0x10 * b[3 * k + 2] as nat
  {
    assert Offset(Fat12, 2 * k) == 3 * k && Offset(Fat12, 2 * k + 1) == 3 * k + 1;
    var lo, mid, hi := b[3 * k] as nat, b[3 * k + 1] as nat, b[3 * k + 2] as nat;
    DivMod(lo + 0x100 * mid, 0x1000, mid / 0x10, lo + 0x100 * (mid % 0x10));
    DivMod(mid + 0x100 * hi, 0x10, mid / 0x10 + 0x10 * hi, mid % 0x10);
  }

  lemma Entries16(b: seq<Byte>, c: nat)
    requires 2 * c + 2 <= |b|
    ensures InTable(Fat16, b, c) && GetEntry(Fat16, b, c) == b[2 * c] as nat + 0x100 * b[2 * c + 1] as nat
  {
  }

  /** The upper four of 32 bits are not part of an entry. */
  lemma Entries32(b: seq<Byte>, c: nat)
    requires 4 * c + 4 <= |b|
    ensures InTable(Fat32, b, c)
    ensures GetEntry(Fat32, b, c)
         == b[4 * c] as nat + 0x100 * b[4 * c + 1] as nat + 0x1_0000 * b[4 * c + 2] as nat
          + 0x100_0000 * (b[4 * c + 3] as nat % 0x10)
  {
    var x, y, z, w := b[4 * c] as nat, b[4 * c + 1] as nat, b[4 * c + 2] as nat, b[4 * c + 3] as nat;
    var low := x + 0x100 * y + 0x1_0000 * z;
    assert Get32(b, 4 * c) == low + 0x100_0000 * w;
    DivMod(low + 0x100_0000 * w, 0x1000_0000, w / 0x10, low + 0x100_0000 * (w % 0x10));
  }

  /** The table on the device: entry c begins at byte 2c, or 4c, behind its first sector. */
  lemma TableBytes(disk: seq<Sector>, start: nat, size: nat, c: nat)
    requires start + size <= |disk|
    ensures c < 256 * size ==> var s, o := disk[start + 2 * c / 512], 2 * c % 512;
      RawAt(Fat16, disk, start, size, c) == s[o] as nat + 0x100 * s[o + 1] as nat
    ensures c < 128 * size ==> var s, o := disk[start + 4 * c / 512], 4 * c % 512;
      RawAt(Fat32, disk, start, size, c)
        == s[o] as nat + 0x100 * s[o + 1] as nat + 0x1_0000 * s[o + 2] as nat + 0x100_0000 * s[o + 3] as nat
  {
    assert 2 * c / 512 == c / 256 && 2 * c % 512 == 2 * (c % 256);
    assert 4 * c / 512 == c / 128 && 4 * c % 512 == 4 * (c % 128);
  }

  /** Byte i of a cluster that begins at sector a. */
  lemma ClusterByte(disk: seq<Sector>, dataStart: nat, spc: nat, c: nat, a: nat, i: nat)
    requires c >= 2 && i < 512 * spc && a == dataStart + (c - 2) * spc && a + spc <= |disk|
    ensures |ClusterOf(disk, dataStart, spc, c)| == 512 * spc && i / 512 < spc
    ensures ClusterOf(disk, dataStart, spc, c)[i] == disk[a + i / 512][i % 512]
  {
    hide Flatten;
    assert ClusterOf(disk, dataStart, spc, c) == Flatten(disk[a..a + spc]);
    FlattenAt(disk[a..a + spc], i);
  }

  lemma {:induction false} FlattenAt(ss: seq<Sector>, i: nat)
    requires i < 512 * |ss|
    ensures |Flatten(ss)| == 512 * |ss| && Flatten(ss)[i] == ss[i / 512][i % 512]
  {
    var n := |ss| - 1;
    FlattenLength(ss);
    FlattenLength(ss[..n]);
    if i < 512 * n { FlattenAt(ss[..n], i); }
  }

  /** Where a chain goes on: numbers from two up to below FFF8 or 0FFFFFF8, but not to itself. */
  lemma Links(fat: seq<nat>, c: nat, n: nat)
    requires c < |fat|
    ensures NextOf(Fat16, fat, c) == Some(n) <==> n == fat[c] % 0x1_0000 && 2 <= n < 0xFFF8 && n != c
    ensures NextOf(Fat32, fat, c) == Some(n) <==> n == fat[c] % 0x1000_0000 && 2 <= n < 0x0FFF_FFF8 && n != c
  {
  }

  /** The end marks that are written. */
  lemma Marks()
    ensures EndMark(Fat12) == 0xFFF && EndMark(Fat16) == 0xFFFF && EndMark(Fat32) == 0x0FFF_FFFF
  {
  }

  // ----- Long entries -----

  /** Where character i of a long entry is. */
  function Position(i: nat): nat { if i < 5 then 1 + 2 * i else if i < 11 then 4 + 2 * i else 6 + 2 * i }

  /** Part q of n: its number, marked by 64 in the last part; attribute 15, type 0 and the checksum;
      thirteen characters of two bytes, of which the name's own come first, then a zero, then FFFF. */
  lemma LongEntryBytes(name: seq<Byte>, n: nat, q: nat, chk: Byte, i: nat)
    requires 1 <= q <= n <= 20 && i < 13
    ensures var e := LfnEntry(name, n, q, chk); var x := 13 * (q - 1) + i; var o := Position(i);
      && e[0] as nat == (if q == n then 64 + q else q) && e[11] == 15 && e[12] == 0
      && e[13] == chk && e[26] == 0 && e[27] == 0
      && o + 1 < 32
      && e[o] == (if x < |name| then name[x] else if x == |name| then 0 else 255)
      && e[o + 1] == (if x <= |name| then 0 else 255)
  {
    hide Encoded;
    var e := LfnEntry(name, n, q, chk);
    var y := (q - 1) * 13;
    assert e[1..11] == Encoded(name, y, 5) && e[14..26] == Encoded(name, y + 5, 6)
        && e[28..32] == Encoded(name, y + 11, 2);
    hide LfnEntry;
    if i < 5 {
      EncodedByte(name, y, 5, i, e[1..11]);
    } else if i < 11 {
      EncodedByte(name, y + 5, 6, i - 5, e[14..26]);
    } else {
      EncodedByte(name, y + 11, 2, i - 11, e[28..32]);
    }
  }

  lemma EncodedByte(name: seq<Byte>, x: nat, count: nat, i: nat, w: seq<Byte>)
    requires i < count && w == Encoded(name, x, count)
    ensures w[2 * i] == (if x + i < |name| then name[x + i] else if x + i == |name| then 0 else 255)
    ensures w[2 * i + 1] == (if x + i <= |name| then 0 else 255)
  {
    assert 2 * i / 2 == i && (2 * i + 1) / 2 == i;
  }

  /** As many parts as the characters need, thirteen to a part. */
  lemma PartsNeeded(len: nat)
    requires len > 0
    ensures 13 * (PartCount(len) - 1) < len <= 13 * PartCount(len)
  {
  }

  /** The checksum turns the sum right by one bit and adds the next byte. */
  lemma ChecksumNext(s: seq<Byte>, b: Byte)
    ensures Checksum([]) == 0
    ensures Checksum(s + [b]) == (Checksum(s) / 2 + 128 * (Checksum(s) % 2) + b as nat) % 256
  {
    assert (s + [b])[..|s|] == s;
  }

  /** A long entry whose number is zero or above twenty is not taken up. */
  lemma NumberBounds(p: Parser, e: Entry, sec: nat, slot: nat)
    requires |p.name| == 256 && e[0] != 0 && e[0] != 0xE5 && e[11] == 15
    ensures var r := Feed(p, e, sec, slot); var k := e[0] as nat % 32;
      && (k == 0 || k > 20 ==> !r.isValid && !r.hasLfn)
      && (1 <= k <= 20 && e[0] as nat / 64 % 2 == 1 ==>
        r.isValid && r.hasLfn && r.total == k && r.checksum == e[13] as nat)
  {
    hide DecodeEntry;
  }

  /** Byte j of directory slot k: sixteen slots of 32 bytes a sector. */
  lemma SlotByte(d: seq<Sector>, k: nat, j: nat)
    requires k < 16 * |d| && j < 32
    ensures Slot(d, k)[j] == d[k / 16][32 * (k % 16) + j]
  {
  }

  // ----- Short names -----

  /** A character that a short name can have: no small letter, no blank, none of + , ; = [ ]. */
  predicate Plain(c: Byte) {
    !(97 <= c <= 122) && c != 32 && c != 43 && c != 44 && c != 59 && c != 61 && c != 91 && c != 93
  }

  /** A name with its only dot at p, or without one if p is its length. */
  ghost predicate DotAt(name: seq<Byte>, p: nat) {
    && p <= |name| && (forall i :: 0 <= i < |name| && i != p ==> name[i] != 46) && (p < |name| ==> name[p] == 46)
  }

  /** A name is kept without long entries exactly if it is "." or "..", or has only plain characters
      and at most one dot, with one to eight of them in front of it and up to three behind. */
  lemma ShortExactly(name: seq<Byte>)
    ensures !NeedsLfn(name) <==>
      || name == [46] || name == [46, 46]
      || (&& (forall i :: 0 <= i < |name| ==> Plain(name[i]))
          && exists p: nat :: DotAt(name, p) && p <= 8 && (p < |name| ==> 1 <= p && |name| - p - 1 <= 3))
  {
    DotIndex(name);
    var base := |BeforeDot(name)|;
    hide BeforeDot;
    assert forall i :: 0 <= i < |name| ==> (Plain(name[i]) <==> !NotShort(name[i]));
    var two := exists i, j :: 0 <= i < j < |name| && name[i] == DOT && name[j] == DOT;
    if !two {
      assert DotAt(name, base);
    }
    if p: nat :| DotAt(name, p) {
      assert !two && p == base;
    }
  }

  /** The part in front of the first dot. */
  lemma {:induction false} DotIndex(name: seq<Byte>)
    ensures var p := |BeforeDot(name)|;
      p <= |name| && (forall i :: 0 <= i < p ==> name[i] != 46) && (p < |name| ==> name[p] == 46)
  {
    if name != [] && name[0] != DOT { DotIndex(name[1..]); }
  }

  /** The stop of a name part at p: a slash either way, or the first dot if dots count. */
  ghost predicate StopsAt(s: seq<Byte>, lo: nat, p: nat, dot: bool) {
    && lo <= p <= |s|
    && (forall i :: lo <= i < p ==> s[i] != 47 && s[i] != 92 && !(dot && s[i] == 46))
    && (p < |s| ==> s[p] == 47 || s[p] == 92 || (dot && s[p] == 46))
  }

  /** A short name: up to eight capitals in front of the dot at p, up to three behind it and in front
      of q, filled up with blanks. */
  lemma ShortFormBytes(name: seq<Byte>, p: nat, q: nat, i: nat)
    requires name != [46] && name != [46, 46] && i < 11
    requires StopsAt(name, 0, p, true)
    requires if p < |name| && name[p] == 46 then StopsAt(name, p + 1, q, false) else q == 0
    ensures var k := if i < 8 then i else p + 1 + (i - 8);
      ShortForm(name)[i]
        == if k < (if i < 8 then p else q) then (if 97 <= name[k] <= 122 then name[k] - 32 else name[k]) else 32
  {
    hide UpTo, Field, StopsAt;
    StopInside(name, 0, p, true);
    PartLength(name, 0, p, true);
    assert name[0..] == name && name[0..p] == name[..p];
    var dot := p < |name| && name[p] == 46;
    if dot { StopInside(name, p + 1, q, false); }
    var ext := if dot then name[p + 1..q] else [];
    if dot {
      PartLength(name, p + 1, q, false);
      assert name[p..][1..] == name[p + 1..];
    }
    assert ShortForm(name) == Field(name[..p], 8) + Field(ext, 3);
    FieldByte(name[..p], 8, if i < 8 then i else 0);
    FieldByte(ext, 3, if i < 8 then 0 else i - 8);
  }

  lemma StopInside(s: seq<Byte>, lo: nat, p: nat, dot: bool)
    requires StopsAt(s, lo, p, dot)
    ensures lo <= p <= |s|
  {
  }

  lemma FieldByte(s: seq<Byte>, n: nat, i: nat)
    requires i < n
    ensures Field(s, n)[i] == if i < |s| then (if 97 <= s[i] <= 122 then s[i] - 32 else s[i]) else 32
  {
  }

  lemma {:induction false} PartLength(s: seq<Byte>, lo: nat, p: nat, dot: bool)
    requires StopsAt(s, lo, p, dot)
    ensures UpTo(s[lo..], dot) == s[lo..p]
    decreases p - lo
  {
    if lo < p {
      PartLength(s, lo + 1, p, dot);
      assert s[lo..][1..] == s[lo + 1..];
      assert s[lo..p] == [s[lo]] + s[lo + 1..p];
    }
  }

  // ----- Short entries -----

  /** First cluster at 26 and 20, length at 28, attribute at 11, all little-endian. */
  lemma ShortEntryFields(e: Entry)
    ensures FirstOf(e) == e[26] as nat + 0x100 * e[27] as nat + 0x1_0000 * e[20] as nat + 0x100_0000 * e[21] as nat
    ensures LengthOf(e)
         == e[28] as nat + 0x100 * e[29] as nat + 0x1_0000 * e[30] as nat + 0x100_0000 * e[31] as nat
    ensures IsDirectory(e) <==> Bit(e[11] as nat, 4)
  {
    var x := e[11] as nat;
    assert x / 2 / 2 / 2 / 2 == x / 16;
    assert Bit(x, 4) == Bit(x / 2, 3) == Bit(x / 2 / 2, 2) == Bit(x / 2 / 2 / 2, 1) == Bit(x / 2 / 2 / 2 / 2, 0);
  }

  /** Writing them marks the entry as an archive and leaves the other bytes. */
  lemma ShortEntryWritten(e: Entry, first: nat, len: nat, i: nat)
    requires first < 0x1_0000_0000 && len < 0x1_0000_0000 && i < 32
    ensures var r := WithData(e, first, len);
      && r[11] == 0x20 && (i != 11 && i != 20 && i != 21 && i < 26 ==> r[i] == e[i])
  {
    var a := e[11 := ARCHIVE];
    var b := Put16(a, 20, first / 0x1_0000);
    var c := Put16(b, 26, first % 0x1_0000);
    hide Put16, Put32;
    forall j | 0 <= j < 26 ensures Put32(c, 28, len)[j] == c[j] == b[j] {
      Put32Other(c, 28, len, j);
      Put16Other(b, 26, first % 0x1_0000, j);
    }
    forall j | 0 <= j < 26 && j != 20 && j != 21 ensures b[j] == a[j] { Put16Other(a, 20, first / 0x1_0000, j); }
  }

  /** The fixed root directory has sixteen slots a sector, of which at most 1024 sectors are used. */
  lemma RootSlots(start: nat, sectors: nat)
    ensures RootEnd(start, sectors) == 16 * start + 16 * Min(sectors, 1024)
  {
  }
}
