/**
  Entries of a file allocation table in their packed form: 12, 16 or 28 bits of
  little-endian bytes.
 */
module FatEntry {
  import opened Prelude
  import opened Words

  datatype Kind = Fat12 | Fat16 | Fat32

  /** One more than the largest entry. */
  function Limit(kind: Kind): nat {
    match kind
    case Fat12 => 0x1000
    case Fat16 => 0x1_0000
    case Fat32 => 0x1000_0000
  }

  /** The mark the writers put at the end of a chain; readers accept the last eight values. */
  function EndMark(kind: Kind): nat { Limit(kind) - 1 }

  function EndLimit(kind: Kind): nat { Limit(kind) - 8 }

  // ----- Entries -----

  /** Where the bytes of entry c begin. */
  function Offset(kind: Kind, c: nat): nat {
    match kind
    case Fat12 => c + c / 2
    case Fat16 => c * 2
    case Fat32 => c * 4
  }

  predicate InTable(kind: Kind, b: seq<Byte>, c: nat) {
    Offset(kind, c) + (if kind == Fat32 then 4 else 2) <= |b|
  }

  function GetEntry(kind: Kind, b: seq<Byte>, c: nat): (v: nat)
    requires InTable(kind, b, c)
    ensures v < Limit(kind)
  {
    var o := Offset(kind, c);
    match kind
    case Fat12 => if c % 2 == 1 then Get16(b, o) / 0x10 else Get16(b, o) % 0x1000
    case Fat16 => Get16(b, o)
    case Fat32 => Get32(b, o) % 0x1000_0000
  }

  /** The word that is stored: a 12-bit entry shares it with half of a neighbour, a
      28-bit entry keeps the four reserved bits. */
  function Patched(kind: Kind, was: nat, c: nat, v: nat): nat {
    match kind
    case Fat12 => if c % 2 == 1 then was % 0x10 + v % 0x1000 * 0x10 else was / 0x1000 * 0x1000 + v % 0x1000
    case Fat16 => v % 0x1_0000
    case Fat32 => was / 0x1000_0000 * 0x1000_0000 + v % 0x1000_0000
  }

  function SetEntry(kind: Kind, b: seq<Byte>, c: nat, v: nat): (r: seq<Byte>)
    requires InTable(kind, b, c)
    ensures |r| == |b|
  {
    var o := Offset(kind, c);
    if kind == Fat32 then Put32(b, o, Patched(kind, Get32(b, o), c, v))
    else Put16(b, o, Patched(kind, Get16(b, o), c, v))
  }

  /** Patching sets the entry's own bits of the word and keeps the others. */
  lemma PatchLaws(was: nat, v: nat)
    requires was < 0x1_0000
    ensures var w := Patched(Fat12, was, 1, v); w < 0x1_0000 && w / 0x10 == v % 0x1000 && w % 0x10 == was % 0x10
    ensures var w := Patched(Fat12, was, 0, v); w < 0x1_0000 && w % 0x1000 == v % 0x1000 && w / 0x1000 == was / 0x1000
  {
    DivMod(was % 0x10 + v % 0x1000 * 0x10, 0x10, v % 0x1000, was % 0x10);
    DivMod(was / 0x1000 * 0x1000 + v % 0x1000, 0x1000, was / 0x1000, v % 0x1000);
  }

  lemma PatchLaw32(was: nat, v: nat)
    requires was < 0x1_0000_0000
    ensures var w := Patched(Fat32, was, 0, v);
            w < 0x1_0000_0000 && w % 0x1000_0000 == v % 0x1000_0000 && w / 0x1000_0000 == was / 0x1000_0000
  {
    DivMod(was / 0x1000_0000 * 0x1000_0000 + v % 0x1000_0000, 0x1000_0000, was / 0x1000_0000, v % 0x1000_0000);
  }

  /** Reading back what was set gives it truncated to the width of an entry. */
  lemma SetGet(kind: Kind, b: seq<Byte>, c: nat, v: nat)
    requires InTable(kind, b, c)
    ensures GetEntry(kind, SetEntry(kind, b, c, v), c) == v % Limit(kind)
  {
    hide Get16, Put16, Get32, Put32;
    var o := Offset(kind, c);
    if kind == Fat32 {
      PatchLaw32(Get32(b, o), v);
      Put32Get(b, o, Patched(kind, Get32(b, o), c, v));
    } else {
      if kind == Fat12 { PatchLaws(Get16(b, o), v); }
      Put16Get(b, o, Patched(kind, Get16(b, o), c, v));
    }
  }

  /** No other entry changes, not even one that shares a byte. */
  lemma SetOther(kind: Kind, b: seq<Byte>, c: nat, v: nat, d: nat)
    requires InTable(kind, b, c) && InTable(kind, b, d) && c != d
    ensures GetEntry(kind, SetEntry(kind, b, c, v), d) == GetEntry(kind, b, d)
  {
    match kind
    case Fat12 => SetOther12(b, c, v, d);
    case Fat16 =>
    case Fat32 =>
  }

  lemma HighPart(x: nat, y: nat)
    requires x < 0x100
    ensures (x + 0x100 * y) / 0x10 == x / 0x10 + 0x10 * y
  {
    DivMod(x + 0x100 * y, 0x10, x / 0x10 + 0x10 * y, x % 0x10);
  }

  lemma LowPart(x: nat, y: nat)
    requires x < 0x100
    ensures (x + 0x100 * y) % 0x1000 == x + 0x100 * (y % 0x10)
  {
    DivMod(x + 0x100 * y, 0x1000, y / 0x10, x + 0x100 * (y % 0x10));
  }

  /** The halves of a stored word, seen from the two bytes. */
  lemma BytesOf(b: seq<Byte>, o: nat, w: nat)
    requires o + 2 <= |b| && w < 0x1_0000
    ensures var r := Put16(b, o, w); r[o] as nat % 0x10 == w % 0x10 && r[o + 1] as nat / 0x10 == w / 0x1000
  {
  }

  lemma WordOf(b: seq<Byte>, o: nat)
    requires o + 2 <= |b|
    ensures b[o] as nat % 0x10 == Get16(b, o) % 0x10 && b[o + 1] as nat / 0x10 == Get16(b, o) / 0x1000
  {
    DivMod(Get16(b, o), 0x10, b[o] as nat / 0x10 + 0x10 * b[o + 1] as nat, b[o] as nat % 0x10);
    DivMod(Get16(b, o), 0x1000, b[o + 1] as nat / 0x10, b[o] as nat + 0x100 * (b[o + 1] as nat % 0x10));
  }

  /** The neighbour above shares the high byte of an even entry. */
  lemma NeighbourAbove(b: seq<Byte>, o: nat, w: nat)
    requires o + 3 <= |b| && w < 0x1_0000 && w / 0x1000 == Get16(b, o) / 0x1000
    ensures Get16(Put16(b, o, w), o + 1) / 0x10 == Get16(b, o + 1) / 0x10
  {
    var r := Put16(b, o, w);
    BytesOf(b, o, w);
    WordOf(b, o);
    HighPart(r[o + 1] as nat, r[o + 2] as nat);
    HighPart(b[o + 1] as nat, b[o + 2] as nat);
  }

  /** The neighbour below shares the low byte of an odd entry. */
  lemma NeighbourBelow(b: seq<Byte>, o: nat, w: nat)
    requires 0 < o && o + 2 <= |b| && w < 0x1_0000 && w % 0x10 == Get16(b, o) % 0x10
    ensures Get16(Put16(b, o, w), o - 1) % 0x1000 == Get16(b, o - 1) % 0x1000
  {
    var r := Put16(b, o, w);
    BytesOf(b, o, w);
    WordOf(b, o);
    LowPart(r[o - 1] as nat, r[o] as nat);
    LowPart(b[o - 1] as nat, b[o] as nat);
  }

  lemma Put16Apart(b: seq<Byte>, o: nat, w: nat, e: nat)
    requires o + 2 <= |b| && e + 2 <= |b| && (e + 2 <= o || o + 2 <= e)
    ensures Get16(Put16(b, o, w), e) == Get16(b, e)
  {
  }

  lemma SetOther12(b: seq<Byte>, c: nat, v: nat, d: nat)
    requires InTable(Fat12, b, c) && InTable(Fat12, b, d) && c != d
    ensures GetEntry(Fat12, SetEntry(Fat12, b, c, v), d) == GetEntry(Fat12, b, d)
  {
    var o := c + c / 2;
    var w := Patched(Fat12, Get16(b, o), c, v);
    PatchLaws(Get16(b, o), v);
    hide Get16, Put16;
    if d == c + 1 && c % 2 == 0 {
      NeighbourAbove(b, o, w);
    } else if c == d + 1 && d % 2 == 0 {
      NeighbourBelow(b, o, w);
    } else {
      Put16Apart(b, o, w, d + d / 2);
    }
  }
}
