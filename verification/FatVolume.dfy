/**
  A mounted FAT16 or FAT32 volume on a block device of 512-byte sectors: table entries
  patched inside their sector, clusters read and written as runs of sectors.
 */
module FatVolume {
  import opened Prelude
  import opened Words
  import opened FatEntry
  import opened FatChain

  function EntriesPerSector(kind: Kind): nat {
    if kind == Fat32 then 128 else 256
  }

  // ----- Runs of sectors -----

  function Flatten(ss: seq<Sector>): seq<Byte> {
    if ss == [] then [] else Flatten(ss[..|ss| - 1]) + ss[|ss| - 1]
  }

  lemma {:induction false} FlattenLength(ss: seq<Sector>)
    ensures |Flatten(ss)| == SECTOR * |ss|
  {
    if ss != [] {
      FlattenLength(ss[..|ss| - 1]);
    }
  }

  /** Cutting a buffer into sectors and joining them again. */
  lemma {:induction false} FlattenCut(ss: seq<Sector>, buf: seq<Byte>)
    requires |buf| == SECTOR * |ss|
    requires forall i :: 0 <= i < |ss| ==> ss[i] == buf[SECTOR * i..SECTOR * (i + 1)]
    ensures Flatten(ss) == buf
  {
    if ss != [] {
      var n := |ss| - 1;
      var front := buf[..SECTOR * n];
      forall i | 0 <= i < n ensures ss[..n][i] == front[SECTOR * i..SECTOR * (i + 1)] {
        assert ss[..n][i] == ss[i];
        assert front[SECTOR * i..SECTOR * (i + 1)] == buf[SECTOR * i..SECTOR * (i + 1)];
      }
      FlattenCut(ss[..n], front);
      assert ss[n] == buf[SECTOR * n..];
    }
  }

  // ----- The table in its sectors -----

  /** The raw entry c of the sector. */
  function RawIn(kind: Kind, s: Sector, i: nat): nat
    requires kind != Fat12 && i < EntriesPerSector(kind)
  {
    if kind == Fat32 then Get32(s, 4 * i) else Get16(s, 2 * i)
  }

  lemma SetRaw(kind: Kind, s: Sector, i: nat, v: nat, j: nat)
    requires kind != Fat12 && i < EntriesPerSector(kind) && j < EntriesPerSector(kind)
    ensures InTable(kind, s, i)
    ensures RawIn(kind, SetEntry(kind, s, i, v), j)
         == if i == j then Patched(kind, RawIn(kind, s, i), i, v) else RawIn(kind, s, j)
  {
    if kind == Fat32 {
      PatchLaw32(Get32(s, 4 * i), v);
      if i == j {
        Put32Get(s, 4 * i, Patched(kind, Get32(s, 4 * i), i, v));
      } else {
        assert 4 * j + 4 <= 4 * i || 4 * i + 4 <= 4 * j;
      }
    } else {
      if i == j {
        Put16Get(s, 2 * i, Patched(kind, Get16(s, 2 * i), i, v));
      } else {
        assert 2 * j + 2 <= 2 * i || 2 * i + 2 <= 2 * j;
      }
    }
  }

  /** The entries determine the bytes. */
  lemma RawDetermines(kind: Kind, s: Sector, t: Sector)
    requires kind != Fat12
    requires forall i :: 0 <= i < EntriesPerSector(kind) ==> RawIn(kind, s, i) == RawIn(kind, t, i)
    ensures s == t
  {
    forall x | 0 <= x < SECTOR ensures s[x] == t[x] {
      var i := if kind == Fat32 then x / 4 else x / 2;
      assert RawIn(kind, s, i) == RawIn(kind, t, i);
      if kind == Fat32 {
        WordBytes(s, t, 4 * i);
        WordBytes(s, t, 4 * i + 2);
      } else {
        WordBytes(s, t, 2 * i);
      }
    }
  }

  lemma WordBytes(s: Sector, t: Sector, o: nat)
    requires o + 2 <= |s| && o + 2 <= |t|
    ensures Get16(s, o) == Get16(t, o) ==> s[o] == t[o] && s[o + 1] == t[o + 1]
  {
  }

  /** The whole first copy of the table. */
  ghost function RawFat(kind: Kind, disk: seq<Sector>, start: nat, size: nat): (r: seq<nat>)
    requires kind != Fat12 && start + size <= |disk|
    ensures |r| == size * EntriesPerSector(kind)
  {
    seq(size * EntriesPerSector(kind), c requires 0 <= c < size * EntriesPerSector(kind) =>
      RawAt(kind, disk, start, size, c))
  }

  ghost function RawAt(kind: Kind, disk: seq<Sector>, start: nat, size: nat, c: nat): nat
    requires kind != Fat12 && start + size <= |disk| && c < size * EntriesPerSector(kind)
  {
    var k := EntriesPerSector(kind);
    RawIn(kind, disk[start + c / k], c % k)
  }

  lemma RawFatUpdate(kind: Kind, disk: seq<Sector>, disk': seq<Sector>, start: nat, size: nat, c: nat, v: nat)
    requires kind != Fat12 && start + size <= |disk| == |disk'| && c < size * EntriesPerSector(kind)
    requires var k := EntriesPerSector(kind); var sec := start + c / k;
      && InTable(kind, disk[sec], c % k)
      && disk'[sec] == SetEntry(kind, disk[sec], c % k, v)
      && (forall i :: start <= i < start + size && i != sec ==> disk'[i] == disk[i])
    ensures RawFat(kind, disk', start, size) == Set(kind, RawFat(kind, disk, start, size), c, v)
  {
    var k := EntriesPerSector(kind);
    var f, f' := RawFat(kind, disk, start, size), RawFat(kind, disk', start, size);
    forall d | 0 <= d < |f| ensures f'[d] == Set(kind, f, c, v)[d] {
      if d / k == c / k {
        SetRaw(kind, disk[start + c / k], c % k, v, d % k);
      }
    }
  }

  // ----- Clusters -----

  /** Where cluster c begins on the device. */
  function Lba(dataStart: nat, spc: nat, c: nat): nat
    requires c >= 2
  {
    dataStart + (c - 2) * spc
  }

  /** Clusters lie in order, inside the data area, and do not overlap. */
  lemma LbaOrder(dataStart: nat, spc: nat, total: nat, c: nat, d: nat)
    requires 2 <= c < d < total + 2
    ensures Lba(dataStart, spc, c) + spc <= Lba(dataStart, spc, d)
    ensures Lba(dataStart, spc, d) + spc <= dataStart + total * spc
  {
    MulGrows(c - 2, d - 2, spc);
    MulGrows(d - 2, total, spc);
  }

  lemma LbaInside(dataStart: nat, spc: nat, total: nat, c: nat)
    requires 2 <= c < total + 2
    ensures dataStart <= Lba(dataStart, spc, c) && Lba(dataStart, spc, c) + spc <= dataStart + total * spc
  {
    MulGrows(c - 2, total, spc);
  }

  ghost function ClusterOf(disk: seq<Sector>, dataStart: nat, spc: nat, c: nat): seq<Byte> {
    if c < 2 || Lba(dataStart, spc, c) + spc > |disk| then []
    else Flatten(disk[Lba(dataStart, spc, c)..Lba(dataStart, spc, c) + spc])
  }

  ghost function ClustersOf(disk: seq<Sector>, dataStart: nat, spc: nat, n: nat): (r: seq<seq<Byte>>)
    ensures |r| == n
  {
    seq(n, c requires 0 <= c < n => ClusterOf(disk, dataStart, spc, c))
  }

  lemma ClusterKept(disk: seq<Sector>, disk': seq<Sector>, dataStart: nat, spc: nat, c: nat)
    requires |disk'| == |disk|
    requires c >= 2 ==> var a := Lba(dataStart, spc, c); forall i :: a <= i < a + spc && i < |disk| ==>
      disk'[i] == disk[i]
    ensures ClusterOf(disk', dataStart, spc, c) == ClusterOf(disk, dataStart, spc, c)
  {
    if c >= 2 {
      var a := Lba(dataStart, spc, c);
      hide Lba, Flatten;
      if a + spc <= |disk| { assert disk'[a..a + spc] == disk[a..a + spc]; }
    }
  }

  /** Outside the data area nothing is a cluster. */
  lemma ClustersKept(disk: seq<Sector>, disk': seq<Sector>, dataStart: nat, spc: nat, n: nat)
    requires |disk'| == |disk| && forall i :: dataStart <= i < |disk| ==> disk'[i] == disk[i]
    ensures ClustersOf(disk', dataStart, spc, n) == ClustersOf(disk, dataStart, spc, n)
  {
    hide ClusterOf;
    forall c | 0 <= c < n ensures ClusterOf(disk', dataStart, spc, c) == ClusterOf(disk, dataStart, spc, c) {
      if c >= 2 { LbaInside(dataStart, spc, c - 1, c); }
      hide Lba;
      ClusterKept(disk, disk', dataStart, spc, c);
    }
  }

  lemma ClustersUpdate(disk: seq<Sector>, disk': seq<Sector>, dataStart: nat, spc: nat, total: nat, c: nat)
    requires 2 <= c < total + 2 && |disk'| == |disk| && dataStart + total * spc <= |disk|
    requires var a := Lba(dataStart, spc, c);
             forall i :: 0 <= i < |disk| && !(a <= i < a + spc) ==> disk'[i] == disk[i]
    ensures ClustersOf(disk', dataStart, spc, total + 2)
         == ClustersOf(disk, dataStart, spc, total + 2)[c := ClusterOf(disk', dataStart, spc, c)]
  {
    hide ClusterOf;
    forall d | 0 <= d < total + 2 && d != c
      ensures ClusterOf(disk', dataStart, spc, d) == ClusterOf(disk, dataStart, spc, d)
    {
      if d >= 2 {
        if d < c { LbaOrder(dataStart, spc, total, d, c); } else { LbaOrder(dataStart, spc, total, c, d); }
      }
      hide Lba;
      ClusterKept(disk, disk', dataStart, spc, d);
    }
  }

  // ----- The volume -----

  datatype Geometry = Geometry(
    kind: Kind,
    fatStart: nat,
    fatSize: nat,
    numFats: nat,
    dataStart: nat,
    spc: nat,
    total: nat)

  /** The geometry fat_mount computes, on a device that is large enough for it. */
  ghost predicate Fits(g: Geometry, disk: seq<Sector>) {
    && g.kind != Fat12
    && 1 <= g.numFats
    && 1 <= g.spc
    && 0 < g.total
    && g.fatStart + g.fatSize + (if g.numFats > 1 then g.fatSize else 0) <= g.dataStart <= |disk|
    && g.total + 2 <= g.fatSize * EntriesPerSector(g.kind) <= Limit(g.kind)
    && g.total + 2 <= EndLimit(g.kind)
    && g.dataStart + g.total * g.spc <= |disk|
  }

  ghost function Fat(g: Geometry, disk: seq<Sector>): (r: seq<nat>)
    requires Fits(g, disk)
    ensures |r| == g.fatSize * EntriesPerSector(g.kind)
  {
    RawFat(g.kind, disk, g.fatStart, g.fatSize)
  }

  ghost function Clusters(g: Geometry, disk: seq<Sector>): (r: seq<seq<Byte>>)
    ensures |r| == g.total + 2
  {
    ClustersOf(disk, g.dataStart, g.spc, g.total + 2)
  }

  /** Where the one or two copies of the table end that the driver keeps up to date. */
  function TablesEnd(g: Geometry): nat { g.fatStart + g.fatSize + if g.numFats > 1 then g.fatSize else 0 }

  /** What lies between the table and the data: the root directory. */
  ghost function Middle(g: Geometry, disk: seq<Sector>): seq<Sector>
    requires Fits(g, disk)
  {
    disk[TablesEnd(g)..g.dataStart]
  }

  /** The second copy of the table agrees with the first. */
  ghost predicate Mirrored(g: Geometry, disk: seq<Sector>)
    requires Fits(g, disk)
  {
    g.numFats > 1 ==>
      forall i :: g.fatStart <= i < g.fatStart + g.fatSize ==> disk[i + g.fatSize] == disk[i]
  }

  /** The sector of the first copy that holds entry c. */
  function SectorOf(g: Geometry, c: nat): (sec: nat)
    requires g.kind != Fat12 && c < g.fatSize * EntriesPerSector(g.kind)
    ensures g.fatStart <= sec < g.fatStart + g.fatSize
    ensures sec == g.fatStart + c / EntriesPerSector(g.kind)
  {
    OffsetInSector(g.kind, c);
    g.fatStart + Offset(g.kind, c) / SECTOR
  }

  function SlotOf(kind: Kind, c: nat): (o: nat)
    requires kind != Fat12
    ensures o + (if kind == Fat32 then 4 else 2) <= SECTOR
  {
    OffsetInSector(kind, c);
    Offset(kind, c) % SECTOR
  }

  /** The disk after set_fat_entry(c, v). */
  ghost function Entered(g: Geometry, disk: seq<Sector>, c: nat, v: nat): (r: seq<Sector>)
    requires Fits(g, disk) && c < g.total + 2
    ensures |r| == |disk|
  {
    var sec := SectorOf(g, c);
    var sector := PatchSector(g.kind, disk[sec], SlotOf(g.kind, c), c, v);
    var d := disk[sec := sector];
    if g.numFats > 1 then d[sec + g.fatSize := sector] else d
  }

  lemma EnteredFits(g: Geometry, disk: seq<Sector>, c: nat, v: nat)
    requires Fits(g, disk) && c < g.total + 2
    ensures var d := Entered(g, disk, c, v);
      && Fits(g, d)
      && (forall i :: 0 <= i < |d| && (i >= g.dataStart || (i < g.fatStart + g.fatSize && i != SectorOf(g, c))) ==>
            d[i] == disk[i])
      && d[SectorOf(g, c)] == PatchSector(g.kind, disk[SectorOf(g, c)], SlotOf(g.kind, c), c, v)
      && (Mirrored(g, disk) ==> Mirrored(g, d))
  {
    hide SectorOf, SlotOf, PatchSector;
  }

  /** One entry of the table changes; the clusters and the agreement of the copies stay. */
  lemma EnteredLaws(g: Geometry, disk: seq<Sector>, c: nat, v: nat)
    requires Fits(g, disk) && c < g.total + 2
    ensures var d := Entered(g, disk, c, v);
      && Fits(g, d)
      && Fat(g, d) == Set(g.kind, Fat(g, disk), c, v)
      && Clusters(g, d) == Clusters(g, disk)
      && Middle(g, d) == Middle(g, disk)
      && (Mirrored(g, disk) ==> Mirrored(g, d))
  {
    hide PatchSector, Entered, SectorOf, SlotOf, Set, Mirrored, Middle, Fat, ClustersOf, Limit, EndLimit,
         EntriesPerSector;
    var d := Entered(g, disk, c, v);
    EnteredFits(g, disk, c, v);
    EnteredMiddle(g, disk, c, v);
    EnteredFat(g, disk, d, c, v);
    ClustersKept(disk, d, g.dataStart, g.spc, g.total + 2);
  }

  /** The table after one of its sectors was patched. */
  lemma EnteredFat(g: Geometry, disk: seq<Sector>, d: seq<Sector>, c: nat, v: nat)
    requires Fits(g, disk) && Fits(g, d) && |d| == |disk| && c < g.total + 2
    requires forall i :: 0 <= i < g.fatStart + g.fatSize && i != SectorOf(g, c) ==> d[i] == disk[i]
    requires d[SectorOf(g, c)] == PatchSector(g.kind, disk[SectorOf(g, c)], SlotOf(g.kind, c), c, v)
    ensures Fat(g, d) == Set(g.kind, Fat(g, disk), c, v)
  {
    hide PatchSector, SectorOf, SlotOf, SetEntry, Set, InTable, RawFat, Limit, EndLimit, EntriesPerSector;
    PatchIsSet(g.kind, disk[SectorOf(g, c)], c, v);
    RawFatUpdate(g.kind, disk, d, g.fatStart, g.fatSize, c, v);
  }

  lemma EnteredMiddle(g: Geometry, disk: seq<Sector>, c: nat, v: nat)
    requires Fits(g, disk) && c < g.total + 2 && Fits(g, Entered(g, disk, c, v))
    ensures Middle(g, Entered(g, disk, c, v)) == Middle(g, disk)
  {
    hide SectorOf, SlotOf, PatchSector;
  }

  lemma OffsetInSector(kind: Kind, c: nat)
    requires kind != Fat12
    ensures var k := EntriesPerSector(kind); var w := if kind == Fat32 then 4 else 2;
            Offset(kind, c) / SECTOR == c / k && Offset(kind, c) % SECTOR == w * (c % k) && c % k < k
  {
  }

  /** The patch of one entry at a byte offset of its sector. */
  function PatchSector(kind: Kind, s: Sector, o: nat, c: nat, v: nat): (r: Sector)
    requires o + (if kind == Fat32 then 4 else 2) <= SECTOR
  {
    if kind == Fat32 then Put32(s, o, Patched(kind, Get32(s, o), c, v))
    else Put16(s, o, Patched(kind, Get16(s, o), c, v))
  }

  lemma PatchIsSet(kind: Kind, s: Sector, c: nat, v: nat)
    requires kind != Fat12
    ensures var k := EntriesPerSector(kind);
      && InTable(kind, s, c % k)
      && PatchSector(kind, s, SlotOf(kind, c), c, v) == SetEntry(kind, s, c % k, v)
  {
    OffsetInSector(kind, c);
  }

  /** An entry of the table, read from its sector. */
  lemma EntryInSector(g: Geometry, d: seq<Sector>, c: nat)
    requires Fits(g, d) && c < g.total + 2
    ensures g.kind != Fat12 && c < g.fatSize * EntriesPerSector(g.kind) && SectorOf(g, c) < |d|
    ensures var s := d[SectorOf(g, c)]; var o := SlotOf(g.kind, c);
            Fat(g, d)[c] == if g.kind == Fat32 then Get32(s, o) else Get16(s, o)
  {
    OffsetInSector(g.kind, c);
    assert Fat(g, d)[c] == RawAt(g.kind, d, g.fatStart, g.fatSize, c);
  }

  class Volume {
    const g: Geometry
    const disk: array<Sector>

    constructor (g: Geometry, disk: array<Sector>)
      requires Fits(g, disk[..])
      ensures this.g == g && this.disk == disk
    {
      this.g, this.disk := g, disk;
    }

    /** get_next_cluster; None stands for 0xFFFFFFFF. */
    method GetNextCluster(c: nat) returns (r: Option<nat>)
      requires Fits(g, disk[..]) && c < g.total + 2
      ensures r == if c < 2 then None else NextOf(g.kind, Fat(g, disk[..]), c)
    {
      if c < 2 {
        return None;
      }
      var raw := ReadEntry(c);
      var n := raw % Limit(g.kind);
      r := if n < 2 || n >= EndLimit(g.kind) || n == c then None else Some(n);
    }

    /** The sector and the offset are computed from the byte offset, as the driver does. */
    method ReadEntry(c: nat) returns (raw: nat)
      requires Fits(g, disk[..]) && c < g.total + 2
      ensures raw == Fat(g, disk[..])[c]
    {
      EntryInSector(g, disk[..], c);
      var sector := disk[SectorOf(g, c)];
      var o := SlotOf(g.kind, c);
      raw := if g.kind == Fat32 then Get32(sector, o) else Get16(sector, o);
    }

    method SetFatEntry(c: nat, v: nat) returns (ok: bool)
      requires Fits(g, disk[..]) && c < g.total + 2
      modifies disk
      ensures ok == (c >= 2)
      ensures disk[..] == if c >= 2 then Entered(g, old(disk[..]), c, v) else old(disk[..])
      ensures Fits(g, disk[..])
      ensures Fat(g, disk[..]) == if c >= 2 then Set(g.kind, old(Fat(g, disk[..])), c, v) else old(Fat(g, disk[..]))
      ensures Clusters(g, disk[..]) == old(Clusters(g, disk[..])) && Middle(g, disk[..]) == old(Middle(g, disk[..]))
      ensures old(Mirrored(g, disk[..])) ==> Mirrored(g, disk[..])
    {
      if c < 2 {
        return false;
      }
      ghost var d0 := disk[..];
      EnteredLaws(g, d0, c, v);
      var sec := SectorOf(g, c);
      hide PatchSector, Fat, Clusters, Mirrored, SectorOf, SlotOf, Middle;
      var sector := PatchSector(g.kind, disk[sec], SlotOf(g.kind, c), c, v);
      disk[sec] := sector;
      if g.numFats > 1 {
        disk[sec + g.fatSize] := sector;
      }
      assert disk[..] == Entered(g, d0, c, v);
      ok := true;
    }

    // ----- alloc_free_cluster -----

    /** The scan keeps the current sector in a buffer and reads a new one only when the
        entry lies in another sector. */
    method FindFreeCluster() returns (r: Option<nat>)
      requires Fits(g, disk[..])
      ensures r == FirstFree(g.kind, Fat(g, disk[..]), 2, ScanEnd(g))
    {
      hide SectorOf, SlotOf, Get16, Get32, Fat, FirstFree, Fits, Limit;
      ghost var fat := Fat(g, disk[..]);
      ScanInside(g, disk[..]);
      var curSector: Option<nat> := None;
      var sector: Sector := Zeros(SECTOR);
      var c := 2;
      while c < ScanEnd(g)
        invariant 2 <= c <= ScanEnd(g)
        invariant curSector.Some? ==> curSector.value < disk.Length && sector == disk[curSector.value]
        invariant FirstFree(g.kind, fat, 2, ScanEnd(g)) == FirstFree(g.kind, fat, c, ScanEnd(g))
      {
        EntryInSector(g, disk[..], c);
        FirstFreeStep(g.kind, fat, c, ScanEnd(g));
        var sec := SectorOf(g, c);
        if curSector != Some(sec) {
          sector := disk[sec];
          curSector := Some(sec);
        }
        var o := SlotOf(g.kind, c);
        var raw := if g.kind == Fat32 then Get32(sector, o) else Get16(sector, o);
        if raw % Limit(g.kind) == 0 {
          return Some(c);
        }
        c := c + 1;
      }
      FirstFreeEnd(g.kind, fat, c, ScanEnd(g));
      r := None;
    }

    /** Zero when the scanned part of the table has no free entry. */
    method AllocFreeCluster() returns (r: nat)
      requires Fits(g, disk[..])
      modifies disk
      ensures Fits(g, disk[..])
      ensures var f := FirstFree(g.kind, old(Fat(g, disk[..])), 2, ScanEnd(g));
              if f.None? then r == 0 && disk[..] == old(disk[..])
              else r == f.value && disk[..] == Entered(g, old(disk[..]), r, EndMark(g.kind))
      ensures r != 0 ==>
        && 2 <= r < g.total + 2 && r < MAX_SCAN + 2 && Value(g.kind, old(Fat(g, disk[..]))[r]) == 0
        && Fat(g, disk[..]) == Set(g.kind, old(Fat(g, disk[..])), r, EndMark(g.kind))
      ensures Clusters(g, disk[..]) == old(Clusters(g, disk[..])) && Middle(g, disk[..]) == old(Middle(g, disk[..]))
      ensures old(Mirrored(g, disk[..])) ==> Mirrored(g, disk[..])
    {
      ScanInside(g, disk[..]);
      hide Fits, Fat, Clusters, Mirrored, Entered, Set, Value, ScanEnd, Middle;
      var f := FindFreeCluster();
      if f.None? {
        return 0;
      }
      var ok := SetFatEntry(f.value, EndMark(g.kind));
      r := f.value;
    }

    // ----- read_cluster, write_cluster -----

    method ReadCluster(c: nat) returns (buf: seq<Byte>)
      requires Fits(g, disk[..]) && 2 <= c < g.total + 2
      ensures buf == Clusters(g, disk[..])[c] && |buf| == SECTOR * g.spc
    {
      var a := Lba(g.dataStart, g.spc, c);
      LbaInside(g.dataStart, g.spc, g.total, c);
      buf := [];
      var i := 0;
      while i < g.spc
        invariant 0 <= i <= g.spc
        invariant buf == Flatten(disk[a..a + i])
      {
        assert disk[a..a + i + 1][..i] == disk[a..a + i];
        buf := buf + disk[a + i];
        i := i + 1;
      }
      FlattenLength(disk[a..a + g.spc]);
      assert disk[..][a..a + g.spc] == disk[a..a + g.spc];
    }

    method WriteCluster(c: nat, buf: seq<Byte>)
      requires Fits(g, disk[..]) && 2 <= c < g.total + 2 && |buf| == SECTOR * g.spc
      modifies disk
      ensures Fits(g, disk[..])
      ensures Fat(g, disk[..]) == old(Fat(g, disk[..]))
      ensures Clusters(g, disk[..]) == old(Clusters(g, disk[..]))[c := buf]
      ensures Middle(g, disk[..]) == old(Middle(g, disk[..]))
      ensures old(Mirrored(g, disk[..])) ==> Mirrored(g, disk[..])
    {
      hide Fits, Fat, Clusters, Mirrored, Lba, Middle;
      ghost var d0 := disk[..];
      var a := Lba(g.dataStart, g.spc, c);
      ClusterInside(g, d0, c);
      WriteSectors(a, buf);
      WrittenLaws(g, d0, disk[..], c, buf);
    }

    /** A run of sectors from a buffer. */
    method WriteSectors(a: nat, buf: seq<Byte>)
      requires a + g.spc <= disk.Length && |buf| == SECTOR * g.spc
      modifies disk
      ensures forall j :: 0 <= j < disk.Length && !(a <= j < a + g.spc) ==> disk[j] == old(disk[j])
      ensures forall j :: 0 <= j < g.spc ==> disk[a + j] == buf[SECTOR * j..SECTOR * (j + 1)]
    {
      var i := 0;
      while i < g.spc
        invariant 0 <= i <= g.spc
        invariant forall j :: 0 <= j < disk.Length && !(a <= j < a + i) ==> disk[j] == old(disk[j])
        invariant forall j :: 0 <= j < i ==> disk[a + j] == buf[SECTOR * j..SECTOR * (j + 1)]
      {
        disk[a + i] := buf[SECTOR * i..SECTOR * (i + 1)];
        i := i + 1;
      }
    }
  }

  lemma ClusterInside(g: Geometry, d: seq<Sector>, c: nat)
    requires Fits(g, d) && 2 <= c < g.total + 2
    ensures Lba(g.dataStart, g.spc, c) + g.spc <= |d|
  {
    LbaInside(g.dataStart, g.spc, g.total, c);
  }

  const MAX_SCAN := 32768

  function ScanEnd(g: Geometry): nat {
    (if 0 < g.total < MAX_SCAN then g.total else MAX_SCAN) + 2
  }

  lemma ScanInside(g: Geometry, d: seq<Sector>)
    requires Fits(g, d)
    ensures ScanEnd(g) <= g.total + 2 <= |Fat(g, d)| && ScanEnd(g) <= MAX_SCAN + 2
  {
  }

  /** The lowest free cluster in [c, hi). */
  ghost function FirstFree(kind: Kind, fat: seq<nat>, c: nat, hi: nat): (r: Option<nat>)
    requires hi <= |fat|
    ensures r.Some? ==> c <= r.value < hi && Value(kind, fat[r.value]) == 0
    ensures forall d :: c <= d < (if r.Some? then r.value else hi) ==> Value(kind, fat[d]) != 0
    decreases hi - c
  {
    if c >= hi then None else if Value(kind, fat[c]) == 0 then Some(c) else FirstFree(kind, fat, c + 1, hi)
  }

  lemma FirstFreeStep(kind: Kind, fat: seq<nat>, c: nat, hi: nat)
    requires c < hi <= |fat|
    ensures FirstFree(kind, fat, c, hi)
         == if fat[c] % Limit(kind) == 0 then Some(c) else FirstFree(kind, fat, c + 1, hi)
  {
  }

  lemma FirstFreeEnd(kind: Kind, fat: seq<nat>, c: nat, hi: nat)
    requires c >= hi && hi <= |fat|
    ensures FirstFree(kind, fat, c, hi) == None
  {
  }

  /** Writing the sectors of one cluster changes that cluster and nothing else. */
  lemma WrittenLaws(g: Geometry, d0: seq<Sector>, d: seq<Sector>, c: nat, buf: seq<Byte>)
    requires Fits(g, d0) && 2 <= c < g.total + 2 && |buf| == SECTOR * g.spc && |d| == |d0|
    requires var a := Lba(g.dataStart, g.spc, c);
      && a + g.spc <= |d|
      && (forall j :: 0 <= j < |d| && !(a <= j < a + g.spc) ==> d[j] == d0[j])
      && (forall j :: 0 <= j < g.spc ==> d[a + j] == buf[SECTOR * j..SECTOR * (j + 1)])
    ensures Fits(g, d)
    ensures Fat(g, d) == Fat(g, d0)
    ensures Clusters(g, d) == Clusters(g, d0)[c := buf]
    ensures Middle(g, d) == Middle(g, d0)
    ensures Mirrored(g, d0) ==> Mirrored(g, d)
  {
    hide Lba, Flatten, Fat, Mirrored, ClusterOf, Limit, EndLimit, EntriesPerSector;
    var a := Lba(g.dataStart, g.spc, c);
    LbaInside(g.dataStart, g.spc, g.total, c);
    FatKept(g, d0, d);
    ClustersUpdate(d0, d, g.dataStart, g.spc, g.total, c);
    ClusterIs(d, g.dataStart, g.spc, c, buf);
  }

  /** The sectors of a cluster hold its bytes. */
  lemma ClusterIs(d: seq<Sector>, dataStart: nat, spc: nat, c: nat, buf: seq<Byte>)
    requires c >= 2 && Lba(dataStart, spc, c) + spc <= |d| && |buf| == SECTOR * spc
    requires forall j :: 0 <= j < spc ==> d[Lba(dataStart, spc, c) + j] == buf[SECTOR * j..SECTOR * (j + 1)]
    ensures ClusterOf(d, dataStart, spc, c) == buf
  {
    hide Lba, Flatten;
    var a := Lba(dataStart, spc, c);
    FlattenCut(d[a..a + spc], buf);
  }

  lemma FatKept(g: Geometry, d0: seq<Sector>, d: seq<Sector>)
    requires Fits(g, d0) && Fits(g, d) && |d| == |d0|
    requires forall i :: 0 <= i < TablesEnd(g) ==> d[i] == d0[i]
    ensures Fat(g, d) == Fat(g, d0)
    ensures Mirrored(g, d0) ==> Mirrored(g, d)
  {
    hide RawIn;
    forall c | 0 <= c < g.fatSize * EntriesPerSector(g.kind)
      ensures RawAt(g.kind, d, g.fatStart, g.fatSize, c) == RawAt(g.kind, d0, g.fatStart, g.fatSize, c)
    {
      SectorBound(c, g.fatSize, EntriesPerSector(g.kind));
    }
    hide RawAt;
  }

  lemma SectorBound(c: nat, n: nat, k: nat)
    requires k > 0 && c < n * k
    ensures c / k < n && c % k < k
  {
    var q, r := c / k, c % k;
    assert c == k * q + r;
    assert q >= n ==> k * q >= k * n;
  }
}
