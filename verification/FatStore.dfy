/**
  fat_write_file and fat_read_file in the fixed root directory: a name leads to an entry, and the
  entry to a chain that carries the bytes of the file.
 */
module FatStore {
  import opened Prelude
  import opened Words
  import opened FatEntry
  import opened FatChain
  import opened FatVolume
  import opened FatFile
  import opened LongName
  import opened Directory

  // ----- Directory entries -----

  const ARCHIVE: Byte := 0x20

  predicate IsDirectory(e: Entry) { e[11] as nat / 16 % 2 == 1 }

  function FirstOf(e: Entry): nat { 0x1_0000 * Get16(e, 20) + Get16(e, 26) }

  function LengthOf(e: Entry): nat { Get32(e, 28) }

  /** The entry with the attribute, first cluster and length of a file. */
  function WithData(e: Entry, first: nat, len: nat): Entry {
    Put32(Put16(Put16(e[11 := ARCHIVE], 20, first / 0x1_0000), 26, first % 0x1_0000), 28, len)
  }

  /** What reading it back gives; the length is kept in 32 bits, and the short name stays. */
  lemma DataLaws(e: Entry, first: nat, len: nat)
    requires first < 0x1_0000_0000 && len < 0x1_0000_0000
    ensures var r := WithData(e, first, len);
      && FirstOf(r) == first && LengthOf(r) == len && !IsDirectory(r)
      && r[..11] == e[..11] && (!Deleted(e) ==> Visible(r))
  {
    var a := e[11 := ARCHIVE];
    var b := Put16(a, 20, first / 0x1_0000);
    var c := Put16(b, 26, first % 0x1_0000);
    var r := Put32(c, 28, len);
    Put16Get(a, 20, first / 0x1_0000);
    Put16Get(b, 26, first % 0x1_0000);
    Put32Get(c, 28, len);
    hide Put16, Put32;
    forall i | 0 <= i < 28 ensures r[i] == c[i] { Put32Other(c, 28, len, i); }
    forall i | 0 <= i < 26 ensures c[i] == b[i] { Put16Other(b, 26, first % 0x1_0000, i); }
    forall i | 0 <= i < 20 ensures b[i] == a[i] { Put16Other(a, 20, first / 0x1_0000, i); }
    assert r[..11] == e[..11];
    assert r[0] == e[0] && r[11] == ARCHIVE;
  }

  /** The short entry of a new file. */
  function NewEntry(short: seq<Byte>, first: nat, len: nat): Entry
    requires |short| == 11
  {
    WithData(short + Zeros(21), first, len)
  }

  // ----- Finding a name -----

  /** The root directory of the volume lies between its tables and its data. */
  ghost predicate RootIn(v: Volume, root: nat, sectors: nat)
    reads v.disk
  {
    Fits(v.g, v.disk[..]) && TablesEnd(v.g) <= root && root + sectors <= v.g.dataStart
  }

  ghost function Lookup(d: seq<Sector>, root: nat, sectors: nat, name: seq<Byte>): (r: Option<nat>)
    requires root + sectors <= |d|
    ensures r.Some? ==> 16 * root <= r.value < RootEnd(root, sectors) && Visible(Slot(d, r.value))
  {
    FoundBehind(d, 16 * root, RootEnd(root, sectors), Fresh(), name);
    var f := FindFrom(d, 16 * root, RootEnd(root, sectors), Fresh(), name);
    if f.Some? then Some(f.value.slot) else None
  }

  /** The same slots, the same answer. */
  lemma LookupSame(d: seq<Sector>, d': seq<Sector>, root: nat, sectors: nat, name: seq<Byte>)
    requires root + sectors <= |d| == |d'| && forall i :: root <= i < root + sectors ==> d'[i] == d[i]
    ensures Lookup(d', root, sectors, name) == Lookup(d, root, sectors, name)
    ensures FindFrom(d', 16 * root, RootEnd(root, sectors), Fresh(), name)
         == FindFrom(d, 16 * root, RootEnd(root, sectors), Fresh(), name)
    ensures forall j :: 16 * root <= j < RootEnd(root, sectors) ==> Slot(d', j) == Slot(d, j)
  {
    hide FindFrom, Fresh;
    forall j | 16 * root <= j < RootEnd(root, sectors) ensures Slot(d', j) == Slot(d, j) {
      assert root <= j / 16 < root + sectors;
    }
    hide Slot, Visible;
    FindSame(d, d', 16 * root, RootEnd(root, sectors), Fresh(), name);
  }

  /** A change inside the root directory leaves the table and the clusters. */
  lemma RootOnly(g: Geometry, d: seq<Sector>, d': seq<Sector>)
    requires Fits(g, d) && |d'| == |d|
    requires forall i :: 0 <= i < |d| && !(TablesEnd(g) <= i < g.dataStart) ==> d'[i] == d[i]
    ensures Fits(g, d') && Fat(g, d') == Fat(g, d) && Clusters(g, d') == Clusters(g, d)
  {
    hide Fat, Clusters;
    FatKept(g, d, d');
    ClustersAre(g, d);
    ClustersAre(g, d');
    ClustersKept(d, d', g.dataStart, g.spc, g.total + 2);
  }

  lemma ClustersAre(g: Geometry, d: seq<Sector>)
    ensures Clusters(g, d) == ClustersOf(d, g.dataStart, g.spc, g.total + 2)
  {
    hide ClustersOf;
  }

  /** Entries placed in the root directory change no other sector. */
  lemma PlacedInside(g: Geometry, d: seq<Sector>, d': seq<Sector>, root: nat, sectors: nat, at: nat, w: seq<Entry>)
    requires Fits(g, d) && TablesEnd(g) <= root && root + sectors <= g.dataStart
    requires 16 * root <= at && at + |w| <= RootEnd(root, sectors) && Placed(d, d', at, w)
    ensures |d'| == |d| && forall i :: 0 <= i < |d| && !(TablesEnd(g) <= i < g.dataStart) ==> d'[i] == d[i]
  {
    forall i | 0 <= i < |d| && !(TablesEnd(g) <= i < g.dataStart) ensures d'[i] == d[i] {
      assert forall j :: 16 * i <= j < 16 * i + 16 ==> Slot(d', j) == Slot(d, j);
      hide Slot, Fits;
      SectorOfSlots(d, d', i);
    }
  }

  /** The data phase leaves the root directory. */
  lemma MiddleSame(g: Geometry, d: seq<Sector>, d': seq<Sector>, root: nat, sectors: nat)
    requires Fits(g, d) && Fits(g, d') && |d'| == |d| && Middle(g, d') == Middle(g, d)
    requires TablesEnd(g) <= root && root + sectors <= g.dataStart
    ensures root + sectors <= |d| && forall i :: root <= i < root + sectors ==> d'[i] == d[i]
  {
    forall i | root <= i < root + sectors ensures d'[i] == d[i] {
      assert d'[i] == Middle(g, d')[i - TablesEnd(g)] && d[i] == Middle(g, d)[i - TablesEnd(g)];
    }
  }

  // ----- A stored file -----

  predicate IsFile(e: Entry, first: nat, len: nat) { FirstOf(e) == first && LengthOf(e) == len && !IsDirectory(e) }

  /** The chain q carries the bytes. */
  ghost predicate Holds(g: Geometry, d: seq<Sector>, q: seq<nat>, buf: seq<Byte>) {
    && Fits(g, d) && q != [] && IsChain(g.kind, Fat(g, d), q) && OnVolume(g, q)
    && Carries(Clusters(g, d), q, buf, SECTOR * g.spc)
  }

  /** The name leads to an entry that has the first cluster and the length of the chain q, which
      carries the bytes. */
  ghost predicate StoredOn(g: Geometry, d: seq<Sector>, root: nat, sectors: nat,
                           name: seq<Byte>, q: seq<nat>, buf: seq<Byte>) {
    && Holds(g, d, q, buf) && TablesEnd(g) <= root && root + sectors <= g.dataStart
    && var k := Lookup(d, root, sectors, name);
       k.Some? && IsFile(Slot(d, k.value), q[0], |buf|)
  }

  lemma HoldsAfter(g: Geometry, d: seq<Sector>, d': seq<Sector>, root: nat, sectors: nat, at: nat, w: seq<Entry>,
                   q: seq<nat>, buf: seq<Byte>)
    requires Holds(g, d, q, buf) && TablesEnd(g) <= root && root + sectors <= g.dataStart
    requires 16 * root <= at && at + |w| <= RootEnd(root, sectors) && Placed(d, d', at, w)
    ensures Holds(g, d', q, buf)
  {
    hide Placed, IsChain, Carries, Clusters, Fat, Fits;
    PlacedInside(g, d, d', root, sectors, at, w);
    RootOnly(g, d, d');
  }

  lemma FirstSmall(g: Geometry, d: seq<Sector>, q: seq<nat>, buf: seq<Byte>)
    requires Holds(g, d, q, buf)
    ensures q != [] && q[0] < 0x1_0000_0000
  {
    hide IsChain, Carries, Clusters, Fat;
  }

  /** The entry of the name is rewritten in place. */
  lemma Rewritten(g: Geometry, d0: seq<Sector>, d: seq<Sector>, d': seq<Sector>, root: nat, sectors: nat,
                  name: seq<Byte>, k: nat, q: seq<nat>, buf: seq<Byte>)
    requires Holds(g, d, q, buf) && TablesEnd(g) <= root && root + sectors <= g.dataStart && |buf| < 0x1_0000_0000
    requires Fits(g, d0) && |d| == |d0| && Middle(g, d) == Middle(g, d0)
    requires Lookup(d0, root, sectors, name) == Some(k)
    requires d' == PutSlot(d, k, WithData(Slot(d, k), q[0], |buf|))
    ensures StoredOn(g, d', root, sectors, name, q, buf)
  {
    hide Holds, Fits, Slot, PutSlot, WithData, Middle, FindFrom, Fresh, Visible, Skipped, IsFile, FirstOf, LengthOf,
         IsDirectory;
    HoldsFits(g, d, q, buf);
    FirstSmall(g, d, q, buf);
    MiddleSame(g, d0, d, root, sectors);
    LookupSame(d0, d, root, sectors, name);
    var e := WithData(Slot(d, k), q[0], |buf|);
    VisibleThere(Slot(d, k));
    DataLaws(Slot(d, k), q[0], |buf|);
    FileIs(e, q[0], |buf|);
    forall j | 0 <= j < 16 * |d| ensures Slot(d', j) == if j == k then e else Slot(d, j) { SlotPut(d, k, e, j); }
    assert Placed(d, d', k, [e]);
    HoldsAfter(g, d, d', root, sectors, k, [e], q, buf);
    FindSame(d, d', 16 * root, RootEnd(root, sectors), Fresh(), name);
  }

  lemma HoldsFits(g: Geometry, d: seq<Sector>, q: seq<nat>, buf: seq<Byte>)
    requires Holds(g, d, q, buf)
    ensures Fits(g, d) && g.dataStart <= |d| && q != []
  {
    hide IsChain, Carries, Clusters, Fat;
  }

  lemma VisibleThere(e: Entry)
    requires Visible(e)
    ensures !Deleted(e)
  {
    hide Skipped;
  }

  lemma FileIs(e: Entry, first: nat, len: nat)
    requires FirstOf(e) == first && LengthOf(e) == len && !IsDirectory(e)
    ensures IsFile(e, first, len)
  {
    hide FirstOf, LengthOf, IsDirectory;
  }

  // ----- Creating a file -----

  /** A name that is found again once it is created: nothing follows the end mark of the
      directory, and the name survives in its entries. */
  ghost predicate Findable(d: seq<Sector>, root: nat, sectors: nat, name: seq<Byte>, short: seq<Byte>)
    requires root + sectors <= |d|
  {
    && |short| == 11 && short[0] != 0 && short[0] != 0xE5
    && Ended(d, 16 * root, RootEnd(root, sectors))
    && if NeedsLfn(name) then |name| <= 247 && NonZero(name)
       else NoSlash(name) && !EndsInDot(name) && short == ShortForm(name)
  }

  lemma EndSame(d: seq<Sector>, d': seq<Sector>, lo: nat, hi: nat, at: nat)
    requires |d'| == |d| && at <= hi <= 16 * |d| && forall j :: lo <= j < hi ==> Slot(d', j) == Slot(d, j)
    ensures EndBetween(d', lo, at) == EndBetween(d, lo, at)
  {
    hide Slot;
  }

  /** Where the new short entry is found. */
  lemma CreatedFound(d0: seq<Sector>, d: seq<Sector>, d': seq<Sector>, root: nat, sectors: nat, name: seq<Byte>,
                     short: seq<Byte>, at: nat, e: Entry)
    requires root + sectors <= |d0| == |d| && |name| <= 255 && Findable(d0, root, sectors, name, short)
    requires Lookup(d0, root, sectors, name) == None && forall i :: root <= i < root + sectors ==> d[i] == d0[i]
    requires LowestRun(d0, 16 * root, RootEnd(root, sectors), LongCount(name) + 1, Some(at))
    requires Visible(e) && e[..11] == short && Placed(d, d', at, Written(name, e))
    ensures Lookup(d', root, sectors, name) == Some(at + LongCount(name)) && Slot(d', at + LongCount(name)) == e
  {
    hide Slot, Placed, Written, NeedsLfn, FindFrom, Fresh, Visible, Ended, EndBetween, ShortForm, EndsInDot, NoSlash,
         NonZero, FreeRun;
    var lo, hi := 16 * root, RootEnd(root, sectors);
    LookupSame(d0, d, root, sectors, name);
    RunBeforeEnd(d0, lo, hi, LongCount(name) + 1, at);
    EndSame(d0, d, lo, hi, at);
    LastPlaced(d, d', at, name, e);
    if NeedsLfn(name) {
      CreateThenFind(d, d', lo, hi, at, name, e);
    } else {
      CreateThenFindShort(d, d', lo, hi, at, name, e);
    }
  }

  lemma LastPlaced(d: seq<Sector>, d': seq<Sector>, at: nat, name: seq<Byte>, e: Entry)
    requires |name| <= 255 && Placed(d, d', at, Written(name, e))
    ensures |d'| == |d| && at + LongCount(name) + 1 <= 16 * |d| && Slot(d', at + LongCount(name)) == e
  {
    hide Slot, NeedsLfn, LfnEntries, Checksum;
    assert Written(name, e)[LongCount(name)] == e;
  }

  lemma Created(g: Geometry, d0: seq<Sector>, d: seq<Sector>, d': seq<Sector>, root: nat, sectors: nat, name: seq<Byte>,
                short: seq<Byte>, at: nat, q: seq<nat>, buf: seq<Byte>)
    requires Holds(g, d, q, buf) && TablesEnd(g) <= root && root + sectors <= g.dataStart && |buf| < 0x1_0000_0000
    requires Fits(g, d0) && |d| == |d0| && Middle(g, d) == Middle(g, d0) && |name| <= 255 && |short| == 11
    requires Lookup(d0, root, sectors, name) == None && Findable(d0, root, sectors, name, short)
    requires LowestRun(d0, 16 * root, RootEnd(root, sectors), LongCount(name) + 1, Some(at))
    requires Placed(d, d', at, Written(name, NewEntry(short, q[0], |buf|)))
    ensures StoredOn(g, d', root, sectors, name, q, buf)
  {
    hide Holds, Fits, Slot, WithData, Middle, FindFrom, Fresh, Visible, Skipped, IsFile, FirstOf, LengthOf, IsDirectory,
         Lookup, Placed, Written, LongCount, Ended, NeedsLfn, ShortForm, EndsInDot, NoSlash, NonZero;
    HoldsFits(g, d, q, buf);
    FirstSmall(g, d, q, buf);
    MiddleSame(g, d0, d, root, sectors);
    var blank: Entry := short + Zeros(21);
    assert blank[..11] == short && blank[0] == short[0];
    var e := NewEntry(short, q[0], |buf|);
    DataLaws(blank, q[0], |buf|);
    FileIs(e, q[0], |buf|);
    CreatedFound(d0, d, d', root, sectors, name, short, at, e);
    HoldsAfter(g, d, d', root, sectors, at, Written(name, e), q, buf);
  }

  // ----- fat_write_file -----

  /** What the writer may assume: an entry that is there leads to a chain, or to nothing yet. */
  ghost predicate OldChain(v: Volume, root: nat, sectors: nat, name: seq<Byte>, p: seq<nat>)
    reads v.disk
    requires RootIn(v, root, sectors)
  {
    var k := Lookup(v.disk[..], root, sectors, name);
    if k.None? then p == []
    else
      var e := Slot(v.disk[..], k.value);
      !IsDirectory(e) ==> FileAt(v, FirstOf(e), p)
  }

  lemma FinishedHolds(v: Volume, job: Job, q: seq<nat>)
    requires Finished(v, job, q) && q != []
    ensures Holds(v.g, v.disk[..], q, job.buf) && Middle(v.g, v.disk[..]) == job.middle
    ensures Safe(v, job, if |job.p| > |q| then job.p else q) && Fits(v.g, v.disk[..])
    ensures job.p == [] ==> |q| <= MAX_SCAN
  {
    if job.p == [] { FreshLength(v, job, q); }
    hide IsChain, Carries, Clusters, Fat, Fits, Untouched, Owned, Mirrored, Middle;
  }

  lemma FullMiddle(v: Volume, job: Job, q: seq<nat>)
    requires OutOfSpace(v, job, q)
    ensures Fits(v.g, v.disk[..]) && Middle(v.g, v.disk[..]) == job.middle && Safe(v, job, q)
  {
    hide Clusters, Fat, Fits, Untouched, Owned, Mirrored, Middle, FirstFree;
  }

  // ----- The other files -----

  ghost predicate ApartFrom(r: seq<nat>, p: seq<nat>) { forall i :: 0 <= i < |r| ==> r[i] !in p }

  /** Every other file is still found under its names and has its contents; the exception is a
      name that now leads to the entry that was written. */
  ghost predicate OthersStay(g: Geometry, d0: seq<Sector>, d: seq<Sector>, root: nat,
                             sectors: nat, p: seq<nat>, slot: Option<nat>) {
    forall name, r, buf :: StoredOn(g, d0, root, sectors, name, r, buf) && ApartFrom(r, p) ==>
      || StoredOn(g, d, root, sectors, name, r, buf)
      || (slot.Some? && root + sectors <= |d| && Lookup(d, root, sectors, name) == slot)
  }

  /** The data phase keeps the chains that are apart from the file. */
  lemma DataKeeps(v: Volume, job: Job, full: seq<nat>, d0: seq<Sector>, r: seq<nat>, buf: seq<Byte>)
    requires Safe(v, job, full) && Fits(v.g, d0) && job.fat0 == Fat(v.g, d0) && job.cl0 == Clusters(v.g, d0)
    requires Holds(v.g, d0, r, buf) && ApartFrom(r, job.p)
    ensures Holds(v.g, v.disk[..], r, buf)
  {
    OtherFileKept(v, job, full, r);
    hide Fat, Clusters, IsChain, Content, Fits, Untouched, Owned, Mirrored, Middle;
  }

  /** A file in another slot. */
  lemma OtherSlot(g: Geometry, d0: seq<Sector>, d: seq<Sector>, d': seq<Sector>, root: nat, sectors: nat,
                  name: seq<Byte>, r: seq<nat>, buf: seq<Byte>, at: nat, w: seq<Entry>)
    requires StoredOn(g, d0, root, sectors, name, r, buf) && Holds(g, d, r, buf)
    requires |d| == |d0| && Middle(g, d) == Middle(g, d0)
    requires 16 * root <= at && at + |w| <= RootEnd(root, sectors) && Placed(d, d', at, w)
    requires var k := Lookup(d0, root, sectors, name).value;
      !(at <= k < at + |w|) && Lookup(d', root, sectors, name) == Some(k)
    ensures StoredOn(g, d', root, sectors, name, r, buf)
  {
    var k := Lookup(d0, root, sectors, name).value;
    assert Slot(d', k) == Slot(d, k);
    hide Slot, Holds, Fits, Middle, FindFrom, Fresh, Visible, IsFile, Placed;
    HoldsFits(g, d, r, buf);
    HoldsFits(g, d0, r, buf);
    MiddleSame(g, d0, d, root, sectors);
    LookupSame(d0, d, root, sectors, name);
    HoldsAfter(g, d, d', root, sectors, at, w, r, buf);
  }

  /** The file was in its slot all the time. */
  lemma SlotStays(d0: seq<Sector>, d: seq<Sector>, root: nat, sectors: nat, name: seq<Byte>, k: nat)
    requires root + sectors <= |d0| == |d| && Lookup(d0, root, sectors, name) == Some(k)
    requires forall i :: root <= i < root + sectors ==> d[i] == d0[i]
    ensures Lookup(d, root, sectors, name) == Some(k) && Slot(d, k) == Slot(d0, k)
    ensures FindFrom(d, 16 * root, RootEnd(root, sectors), Fresh(), name).Some?
  {
    hide Slot, FindFrom, Fresh, Visible;
    LookupSame(d0, d, root, sectors, name);
  }

  lemma StoredParts(g: Geometry, d: seq<Sector>, root: nat, sectors: nat, name: seq<Byte>, r: seq<nat>, buf: seq<Byte>)
    requires StoredOn(g, d, root, sectors, name, r, buf)
    ensures Holds(g, d, r, buf) && TablesEnd(g) <= root && root + sectors <= g.dataStart <= |d|
    ensures Lookup(d, root, sectors, name).Some?
  {
    HoldsFits(g, d, r, buf);
    hide Slot, Holds, Lookup, IsFile;
  }

  lemma OthersRewritten(g: Geometry, d0: seq<Sector>, d: seq<Sector>, d': seq<Sector>, root: nat, sectors: nat,
                        name: seq<Byte>, k: nat, e: Entry, r: seq<nat>, buf: seq<Byte>)
    requires StoredOn(g, d0, root, sectors, name, r, buf) && Holds(g, d, r, buf)
    requires Fits(g, d0) && |d| == |d0| && Middle(g, d) == Middle(g, d0)
    requires 16 * root <= k < RootEnd(root, sectors) && root + sectors <= |d| && d' == PutSlot(d, k, e)
    requires Alike(Slot(d, k), e)
    ensures StoredOn(g, d', root, sectors, name, r, buf) || Lookup(d', root, sectors, name) == Some(k)
  {
    hide StoredOn, Slot, Holds, Fits, Middle, FindFrom, Fresh, Alike, PutSlot, Visible;
    StoredParts(g, d0, root, sectors, name, r, buf);
    HoldsFits(g, d, r, buf);
    MiddleSame(g, d0, d, root, sectors);
    var m := Lookup(d0, root, sectors, name).value;
    SlotStays(d0, d, root, sectors, name, m);
    forall j | 0 <= j < 16 * |d|
      ensures Slot(d', j) == (if j == k then e else Slot(d, j)) && Alike(Slot(d, j), Slot(d', j))
    {
      SlotPut(d, k, e, j);
      AlikeSame(Slot(d, j));
    }
    assert Placed(d, d', k, [e]);
    FindSame(d, d', 16 * root, RootEnd(root, sectors), Fresh(), name);
    if m != k { OtherSlot(g, d0, d, d', root, sectors, name, r, buf, k, [e]); }
  }

  lemma AlikeSame(e: Entry)
    ensures Alike(e, e)
  {
    hide Visible;
  }

  lemma OthersCreated(g: Geometry, d0: seq<Sector>, d: seq<Sector>, d': seq<Sector>, root: nat, sectors: nat,
                      name: seq<Byte>, at: nat, w: seq<Entry>, r: seq<nat>, buf: seq<Byte>)
    requires StoredOn(g, d0, root, sectors, name, r, buf) && Holds(g, d, r, buf)
    requires Fits(g, d0) && |d| == |d0| && Middle(g, d) == Middle(g, d0) && root + sectors <= |d| == |d'|
    requires 16 * root <= at && at + |w| <= RootEnd(root, sectors) && Placed(d, d', at, w) && FileEntries(w)
    requires FreeRun(d0, at, |w|)
    ensures StoredOn(g, d', root, sectors, name, r, buf) || Lookup(d', root, sectors, name) == Some(at + |w| - 1)
  {
    hide StoredOn, Slot, Holds, Fits, Middle, FindFrom, Fresh, Visible, Placed, FileEntries, FreeRun;
    StoredParts(g, d0, root, sectors, name, r, buf);
    HoldsFits(g, d, r, buf);
    MiddleSame(g, d0, d, root, sectors);
    var m := Lookup(d0, root, sectors, name).value;
    SlotStays(d0, d, root, sectors, name, m);
    LookupSame(d0, d, root, sectors, name);
    FreeStays(d0, d, root, sectors, at, |w|);
    FindKept(d, d', 16 * root, at, w, RootEnd(root, sectors), Fresh(), name);
    NotInRun(d, at, |w|, m);
    if Lookup(d', root, sectors, name) == Some(m) {
      OtherSlot(g, d0, d, d', root, sectors, name, r, buf, at, w);
    }
  }

  lemma NotInRun(d: seq<Sector>, at: nat, n: nat, m: nat)
    requires FreeRun(d, at, n) && m < 16 * |d| && Visible(Slot(d, m))
    ensures !(at <= m < at + n)
  {
    hide Slot, Skipped;
  }

  lemma FreeStays(d0: seq<Sector>, d: seq<Sector>, root: nat, sectors: nat, at: nat, n: nat)
    requires root + sectors <= |d0| == |d| && 16 * root <= at && at + n <= RootEnd(root, sectors) && FreeRun(d0, at, n)
    requires forall j :: 16 * root <= j < RootEnd(root, sectors) ==> Slot(d, j) == Slot(d0, j)
    ensures FreeRun(d, at, n)
  {
    hide Slot, Deleted;
  }

  /** The data phase alone. */
  lemma OthersWritten(g: Geometry, d0: seq<Sector>, d: seq<Sector>, root: nat, sectors: nat, name: seq<Byte>,
                      r: seq<nat>, buf: seq<Byte>)
    requires StoredOn(g, d0, root, sectors, name, r, buf) && Holds(g, d, r, buf)
    requires Fits(g, d0) && |d| == |d0| && Middle(g, d) == Middle(g, d0)
    ensures StoredOn(g, d, root, sectors, name, r, buf)
  {
    hide Slot, Holds, Fits, Middle, FindFrom, Fresh, Visible, IsFile;
    StoredParts(g, d0, root, sectors, name, r, buf);
    HoldsFits(g, d, r, buf);
    MiddleSame(g, d0, d, root, sectors);
    SlotStays(d0, d, root, sectors, name, Lookup(d0, root, sectors, name).value);
  }

  /** The chains of the other files carry what they did. */
  ghost predicate ChainsKept(g: Geometry, d0: seq<Sector>, d: seq<Sector>, root: nat, sectors: nat, p: seq<nat>) {
    forall name, r, buf :: StoredOn(g, d0, root, sectors, name, r, buf) && ApartFrom(r, p) ==> Holds(g, d, r, buf)
  }

  lemma AllKept(v: Volume, job: Job, full: seq<nat>, d0: seq<Sector>, root: nat, sectors: nat)
    requires Safe(v, job, full) && Fits(v.g, d0) && job.fat0 == Fat(v.g, d0) && job.cl0 == Clusters(v.g, d0)
    ensures ChainsKept(v.g, d0, v.disk[..], root, sectors, job.p)
  {
    hide StoredOn, Safe, Holds, Fits, Fat, Clusters;
    forall name, r, buf | StoredOn(v.g, d0, root, sectors, name, r, buf) && ApartFrom(r, job.p)
      ensures Holds(v.g, v.disk[..], r, buf)
    {
      StoredParts(v.g, d0, root, sectors, name, r, buf);
      DataKeeps(v, job, full, d0, r, buf);
    }
  }

  lemma AllWritten(g: Geometry, d0: seq<Sector>, d: seq<Sector>, root: nat, sectors: nat, p: seq<nat>)
    requires ChainsKept(g, d0, d, root, sectors, p) && Fits(g, d0) && Fits(g, d) && |d| == |d0|
    requires Middle(g, d) == Middle(g, d0)
    ensures OthersStay(g, d0, d, root, sectors, p, None)
  {
    hide StoredOn, Holds, Fits, Middle, ApartFrom, Lookup;
    forall name, r, buf | StoredOn(g, d0, root, sectors, name, r, buf) && ApartFrom(r, p)
      ensures StoredOn(g, d, root, sectors, name, r, buf)
    {
      OthersWritten(g, d0, d, root, sectors, name, r, buf);
    }
  }

  lemma AllRewritten(g: Geometry, d0: seq<Sector>, d: seq<Sector>, d': seq<Sector>, root: nat, sectors: nat,
                     p: seq<nat>, k: nat, e: Entry)
    requires ChainsKept(g, d0, d, root, sectors, p) && Fits(g, d0) && Fits(g, d) && |d| == |d0|
    requires Middle(g, d) == Middle(g, d0)
    requires 16 * root <= k < RootEnd(root, sectors) && root + sectors <= |d| && d' == PutSlot(d, k, e)
    requires Alike(Slot(d, k), e)
    ensures OthersStay(g, d0, d', root, sectors, p, Some(k))
  {
    hide StoredOn, Holds, Fits, Middle, ApartFrom, Lookup, Alike, Slot, PutSlot;
    forall name, r, buf | StoredOn(g, d0, root, sectors, name, r, buf) && ApartFrom(r, p)
      ensures StoredOn(g, d', root, sectors, name, r, buf) || Lookup(d', root, sectors, name) == Some(k)
    {
      OthersRewritten(g, d0, d, d', root, sectors, name, k, e, r, buf);
    }
  }

  lemma AllCreated(g: Geometry, d0: seq<Sector>, d: seq<Sector>, d': seq<Sector>, root: nat, sectors: nat, p: seq<nat>,
                   at: nat, w: seq<Entry>)
    requires ChainsKept(g, d0, d, root, sectors, p) && Fits(g, d0) && Fits(g, d) && |d| == |d0|
    requires Middle(g, d) == Middle(g, d0)
    requires root + sectors <= |d| == |d'| && 16 * root <= at && at + |w| <= RootEnd(root, sectors)
    requires Placed(d, d', at, w) && FileEntries(w) && FreeRun(d0, at, |w|)
    ensures OthersStay(g, d0, d', root, sectors, p, Some(at + |w| - 1))
  {
    hide StoredOn, Holds, Fits, Middle, ApartFrom, Lookup, Placed, FileEntries, FreeRun;
    FilesEntered(w);
    forall name, r, buf | StoredOn(g, d0, root, sectors, name, r, buf) && ApartFrom(r, p)
      ensures StoredOn(g, d', root, sectors, name, r, buf) || Lookup(d', root, sectors, name) == Some(at + |w| - 1)
    {
      OthersCreated(g, d0, d, d', root, sectors, name, at, w, r, buf);
    }
  }

  lemma FilesEntered(w: seq<Entry>)
    requires FileEntries(w)
    ensures |w| >= 1
  {
    hide Visible, AllLong;
  }

  /** There is a run of n free slots in [lo, hi). */
  ghost predicate HasRun(d: seq<Sector>, lo: nat, hi: nat, n: nat) {
    exists s: nat :: lo <= s && s + n <= hi && FreeRun(d, s, n)
  }

  lemma RunFound(d: seq<Sector>, lo: nat, hi: nat, n: nat, r: Option<nat>)
    requires LowestRun(d, lo, hi, n, r)
    ensures r.Some? <==> HasRun(d, lo, hi, n)
  {
    hide FreeRun;
  }

  /** There are free slots for the entries of the name, side by side. */
  ghost predicate SlotsFree(d: seq<Sector>, root: nat, sectors: nat, name: seq<Byte>)
    requires |name| <= 255
  {
    HasRun(d, 16 * root, RootEnd(root, sectors), LongCount(name) + 1)
  }

  /** The name is that of a file, or is new and has slots; and there are clusters for the bytes. */
  ghost predicate CanWrite(v: Volume, root: nat, sectors: nat, name: seq<Byte>, p: seq<nat>, n: nat)
    reads v.disk
    requires RootIn(v, root, sectors) && |name| <= 255
  {
    var k := Lookup(v.disk[..], root, sectors, name);
    && (if k.Some? then !IsDirectory(Slot(v.disk[..], k.value)) else SlotsFree(v.disk[..], root, sectors, name))
    && HasRoom(v.g, Fat(v.g, v.disk[..]), p, n)
  }

  /** A file that exists keeps its first cluster; its entry is rewritten behind the data. */
  method Overwrite(v: Volume, root: nat, sectors: nat, ghost name: seq<Byte>, k: nat, buf: seq<Byte>, ghost p: seq<nat>)
    returns (ok: bool, ghost q: seq<nat>, ghost slot: Option<nat>)
    requires RootIn(v, root, sectors) && |buf| < 0x1_0000_0000
    requires Lookup(v.disk[..], root, sectors, name) == Some(k) && OldChain(v, root, sectors, name, p)
    modifies v.disk
    ensures ok <==> old(!IsDirectory(Slot(v.disk[..], k)) && HasRoom(v.g, Fat(v.g, v.disk[..]), p, |buf|))
    ensures if ok then StoredOn(v.g, v.disk[..], root, sectors, name, q, buf)
            else Fits(v.g, v.disk[..]) && Middle(v.g, v.disk[..]) == old(Middle(v.g, v.disk[..]))
    ensures OthersStay(v.g, old(v.disk[..]), v.disk[..], root, sectors, p, slot)
  {
    hide StoredOn, Fits, Middle, Slot, WithData, FindFrom, Fresh, Visible, FileAt, Finished, OutOfSpace, Fat, Clusters,
         Mirrored,
         IsDirectory, FirstOf, LengthOf, PutSlot, PatchBytes, OthersStay, ChainsKept, Holds, Alike, Safe, HasRoom;
    ghost var d0 := v.disk[..];
    RootInside(v, root, sectors);
    q, slot := [], None;
    var e := ReadSlot(v.disk, k);
    if IsDirectory(e) {
      NothingWritten(v.g, d0, root, sectors, p);
      return false, [], None;
    }
    var start;
    ghost var job;
    ok, start, q, job := WriteData(v, FirstOf(e), buf, p);
    if !ok {
      FullMiddle(v, job, q);
      AllKept(v, job, q, d0, root, sectors);
      AllWritten(v.g, d0, v.disk[..], root, sectors, p);
      return;
    }
    FinishedHolds(v, job, q);
    AllKept(v, job, if |p| > |q| then p else q, d0, root, sectors);
    ghost var d := v.disk[..];
    var e1 := ReadSlot(v.disk, k);
    WriteSlot(v.disk, k, WithData(e1, start, |buf|));
    Rewritten(v.g, d0, d, v.disk[..], root, sectors, name, k, q, buf);
    EntryAlike(v.g, d0, d, root, sectors, name, k, q, buf);
    AllRewritten(v.g, d0, d, v.disk[..], root, sectors, p, k, WithData(e1, start, |buf|));
    slot := Some(k);
  }

  lemma NothingWritten(g: Geometry, d: seq<Sector>, root: nat, sectors: nat, p: seq<nat>)
    ensures OthersStay(g, d, d, root, sectors, p, None)
  {
    hide StoredOn, Lookup, ApartFrom;
  }

  lemma EntryAlike(g: Geometry, d0: seq<Sector>, d: seq<Sector>, root: nat, sectors: nat, name: seq<Byte>, k: nat,
                   q: seq<nat>, buf: seq<Byte>)
    requires Holds(g, d, q, buf) && TablesEnd(g) <= root && root + sectors <= g.dataStart && |buf| < 0x1_0000_0000
    requires Fits(g, d0) && |d| == |d0| && Middle(g, d) == Middle(g, d0) && root + sectors <= |d|
    requires Lookup(d0, root, sectors, name) == Some(k)
    ensures Alike(Slot(d, k), WithData(Slot(d, k), q[0], |buf|))
  {
    hide Holds, Fits, Slot, WithData, Middle, FindFrom, Fresh, Visible, FirstOf, LengthOf, IsDirectory;
    HoldsFits(g, d, q, buf);
    FirstSmall(g, d, q, buf);
    MiddleSame(g, d0, d, root, sectors);
    SlotStays(d0, d, root, sectors, name, k);
    VisibleThere(Slot(d, k));
    DataLaws(Slot(d, k), q[0], |buf|);
  }

  lemma RootInside(v: Volume, root: nat, sectors: nat)
    requires RootIn(v, root, sectors)
    ensures root + sectors <= v.disk.Length
  {
  }

  method ReadSlot(disk: array<Sector>, k: nat) returns (e: Entry)
    requires k < 16 * disk.Length
    ensures e == Slot(disk[..], k)
  {
    e := disk[k / 16][32 * (k % 16)..32 * (k % 16) + 32];
  }

  method WriteSlot(disk: array<Sector>, k: nat, e: Entry)
    requires k < 16 * disk.Length
    modifies disk
    ensures disk[..] == PutSlot(old(disk[..]), k, e)
  {
    disk[k / 16] := PatchBytes(disk[k / 16], 32 * (k % 16), e);
  }

  /** A new file: slots are chosen first, the data is written, the entries come last. */
  method Create(v: Volume, root: nat, sectors: nat, name: seq<Byte>, short: seq<Byte>, buf: seq<Byte>)
    returns (ok: bool, ghost q: seq<nat>, ghost slot: Option<nat>)
    requires RootIn(v, root, sectors) && |name| <= 255 && |short| == 11 && |buf| < 0x1_0000_0000
    requires Lookup(v.disk[..], root, sectors, name) == None
    modifies v.disk
    ensures ok <==> old(SlotsFree(v.disk[..], root, sectors, name) && HasRoom(v.g, Fat(v.g, v.disk[..]), [], |buf|))
    ensures !ok ==> Fits(v.g, v.disk[..]) && Middle(v.g, v.disk[..]) == old(Middle(v.g, v.disk[..]))
    ensures ok ==> |q| <= 32768 && Holds(v.g, v.disk[..], q, buf)
    ensures ok && old(Findable(v.disk[..], root, sectors, name, short)) ==>
      StoredOn(v.g, v.disk[..], root, sectors, name, q, buf)
    ensures short[0] != 0 && short[0] != 0xE5 ==> OthersStay(v.g, old(v.disk[..]), v.disk[..], root, sectors, [], slot)
  {
    hide StoredOn, Fits, Middle, Slot, WithData, FindFrom, Fresh, Visible, Finished, OutOfSpace, Fat, Clusters,
         Mirrored,
         Findable, Placed, Written, Lookup, Holds, LongCount, FreeRun, OthersStay, ChainsKept, FileEntries, Safe,
         HasRoom, HasRun;
    ghost var d0 := v.disk[..];
    RootInside(v, root, sectors);
    q, slot := [], None;
    var at := FindFreeSlots(v.disk, root, sectors, LongCount(name) + 1);
    RunFound(d0, 16 * root, RootEnd(root, sectors), LongCount(name) + 1, at);
    if at.None? {
      NothingWritten(v.g, d0, root, sectors, []);
      return false, [], None;
    }
    var start;
    ghost var job;
    ok, start, q, job := WriteData(v, 0, buf, []);
    if !ok {
      FullMiddle(v, job, q);
      AllKept(v, job, q, d0, root, sectors);
      AllWritten(v.g, d0, v.disk[..], root, sectors, []);
      return;
    }
    FinishedHolds(v, job, q);
    AllKept(v, job, q, d0, root, sectors);
    ghost var d := v.disk[..];
    ghost var w := Written(name, NewEntry(short, start, |buf|));
    WriteEntries(v.disk, at.value / 16, at.value % 16, name, NewEntry(short, start, |buf|));
    HoldsAfter(v.g, d, v.disk[..], root, sectors, at.value, w, q, buf);
    if Findable(d0, root, sectors, name, short) {
      Created(v.g, d0, d, v.disk[..], root, sectors, name, short, at.value, q, buf);
    }
    if short[0] != 0 && short[0] != 0xE5 {
      NewVisible(v.g, d, name, short, q, buf);
      AllCreated(v.g, d0, d, v.disk[..], root, sectors, [], at.value, w);
      slot := Some(at.value + |w| - 1);
    }
  }

  lemma NewVisible(g: Geometry, d: seq<Sector>, name: seq<Byte>, short: seq<Byte>, q: seq<nat>, buf: seq<Byte>)
    requires Holds(g, d, q, buf) && |name| <= 255 && |short| == 11 && short[0] != 0 && short[0] != 0xE5
    requires |buf| < 0x1_0000_0000
    ensures FileEntries(Written(name, NewEntry(short, q[0], |buf|)))
  {
    hide Holds, WithData, FirstOf, LengthOf, IsDirectory, Visible, Written, FileEntries;
    FirstSmall(g, d, q, buf);
    var blank: Entry := short + Zeros(21);
    assert blank[0] == short[0];
    DataLaws(blank, q[0], |buf|);
    WrittenEntries(name, NewEntry(short, q[0], |buf|));
  }

  /** fat_write_file on the root directory; `short` is the alias that was chosen for a new name. */
  method WriteFile(v: Volume, root: nat, sectors: nat, name: seq<Byte>, short: seq<Byte>, buf: seq<Byte>,
                   ghost p: seq<nat>)
    returns (ok: bool, ghost q: seq<nat>, ghost slot: Option<nat>)
    requires RootIn(v, root, sectors) && |name| <= 255 && |short| == 11 && |buf| < 0x1_0000_0000
    requires OldChain(v, root, sectors, name, p)
    modifies v.disk
    ensures ok <==> old(CanWrite(v, root, sectors, name, p, |buf|))
    ensures !ok ==> Fits(v.g, v.disk[..]) && Middle(v.g, v.disk[..]) == old(Middle(v.g, v.disk[..]))
    ensures ok && (|| old(Lookup(v.disk[..], root, sectors, name)).Some?
                   || old(Findable(v.disk[..], root, sectors, name, short))) ==>
      StoredOn(v.g, v.disk[..], root, sectors, name, q, buf)
    ensures ok && old(Lookup(v.disk[..], root, sectors, name)).None? ==> |q| <= 32768
    ensures short[0] != 0 && short[0] != 0xE5 ==> OthersStay(v.g, old(v.disk[..]), v.disk[..], root, sectors, p, slot)
  {
    hide StoredOn, Fits, Middle, Slot, FindFrom, Fresh, Findable, Holds, OthersStay, FileAt, IsDirectory, HasRoom,
         SlotsFree, Fat;
    RootInside(v, root, sectors);
    var f := FindEntry(v.disk, root, sectors, name);
    if f.Some? {
      ok, q, slot := Overwrite(v, root, sectors, name, f.value.slot, buf, p);
    } else {
      ok, q, slot := Create(v, root, sectors, name, short, buf);
    }
  }

  // ----- fat_read_file -----

  /** What is read of a file: the contents of its chain, up to its length and the limit. */
  ghost predicate IsRead(v: Volume, e: Entry, max: nat, q: seq<nat>, out: seq<Byte>)
    reads v.disk
  {
    if Min(LengthOf(e), max) == 0 || FirstOf(e) < 2 then out == []
    else ReadSoFar(Clusters(v.g, v.disk[..]), q, Min(|q|, 65536), out, Min(LengthOf(e), max))
  }

  /** fat_read_file on the root directory; q is the chain of the file, if there is one. */
  method ReadFile(v: Volume, root: nat, sectors: nat, name: seq<Byte>, max: nat, ghost q: seq<nat>)
    returns (r: Option<seq<Byte>>)
    requires RootIn(v, root, sectors)
    requires var k := Lookup(v.disk[..], root, sectors, name);
      k.Some? && FirstOf(Slot(v.disk[..], k.value)) >= 2 ==>
        q != [] && ChainOn(v, q) && q[0] == FirstOf(Slot(v.disk[..], k.value))
    ensures var k := Lookup(v.disk[..], root, sectors, name);
      if k.None? || IsDirectory(Slot(v.disk[..], k.value)) then r == None
      else r.Some? && IsRead(v, Slot(v.disk[..], k.value), max, q, r.value)
  {
    hide Fits, Slot, FindFrom, Fresh, Visible, Fat, Clusters, IsDirectory, FirstOf, LengthOf, ChainOn, ReadSoFar;
    RootInside(v, root, sectors);
    var f := FindEntry(v.disk, root, sectors, name);
    if f.None? {
      return None;
    }
    var e := ReadSlot(v.disk, f.value.slot);
    if IsDirectory(e) {
      return None;
    }
    var toRead := Min(LengthOf(e), max);
    if toRead == 0 || FirstOf(e) < 2 {
      return Some([]);
    }
    var out := ReadData(v, FirstOf(e), toRead, q);
    r := Some(out);
  }

  /** A file that is written under a name is read back whole under that name, if and only if it
      has no more clusters than a reader visits; a new file never has more. */
  method WriteThenReadFile(v: Volume, root: nat, sectors: nat, name: seq<Byte>, short: seq<Byte>, buf: seq<Byte>,
                           ghost p: seq<nat>)
    returns (ok: bool, r: Option<seq<Byte>>)
    requires RootIn(v, root, sectors) && |name| <= 255 && |short| == 11 && |buf| < 0x1_0000_0000
    requires OldChain(v, root, sectors, name, p)
    requires Lookup(v.disk[..], root, sectors, name).Some? || Findable(v.disk[..], root, sectors, name, short)
    modifies v.disk
    ensures ok <==> old(CanWrite(v, root, sectors, name, p, |buf|))
    ensures ok ==> (r == Some(buf) <==> |buf| <= 65536 * (512 * v.g.spc))
    ensures ok && old(Lookup(v.disk[..], root, sectors, name)).None? ==> r == Some(buf)
  {
    hide Fits, Slot, FindFrom, Fresh, Findable, OldChain, Holds, IsRead, Middle, Lookup, OthersStay, CanWrite;
    ghost var q, slot;
    r := None;
    ok, q, slot := WriteFile(v, root, sectors, name, short, buf, p);
    if ok {
      StoredFacts(v, root, sectors, name, q, buf);
      r := ReadFile(v, root, sectors, name, |buf|, q);
      StoredRead(v, root, sectors, name, q, buf, r.value);
    }
  }

  lemma StoredFacts(v: Volume, root: nat, sectors: nat, name: seq<Byte>, q: seq<nat>, buf: seq<Byte>)
    requires StoredOn(v.g, v.disk[..], root, sectors, name, q, buf)
    ensures RootIn(v, root, sectors) && root + sectors <= v.disk.Length && q != [] && ChainOn(v, q)
    ensures var k := Lookup(v.disk[..], root, sectors, name);
      k.Some? && !IsDirectory(Slot(v.disk[..], k.value)) && q[0] == FirstOf(Slot(v.disk[..], k.value))
  {
    hide Slot, FindFrom, Fresh, IsChain, Carries, Clusters, Fat, FirstOf, LengthOf, IsDirectory, Lookup;
  }

  /** What is read of a stored file. */
  lemma StoredRead(v: Volume, root: nat, sectors: nat, name: seq<Byte>, q: seq<nat>, buf: seq<Byte>, out: seq<Byte>)
    requires StoredOn(v.g, v.disk[..], root, sectors, name, q, buf)
    requires RootIn(v, root, sectors) && root + sectors <= v.disk.Length
    requires Lookup(v.disk[..], root, sectors, name).Some?
    requires IsRead(v, Slot(v.disk[..], Lookup(v.disk[..], root, sectors, name).value), |buf|, q, out)
    ensures out == buf <==> |buf| <= MAX_VISITED * (SECTOR * v.g.spc)
    ensures |q| <= MAX_VISITED ==> out == buf
  {
    hide Slot, FindFrom, Fresh, Clusters, Fat, FirstOf, LengthOf, IsDirectory, Lookup, ReadSoFar, Carries, IsChain,
         Fits, OnVolume;
    var g, d := v.g, v.disk[..];
    StartsAtTwo(g, d, q, buf);
    FewClusters(g, d, q, buf);
    if |buf| == 0 {
    } else if |q| <= MAX_VISITED {
      ReadAll(Clusters(g, d), q, buf, SECTOR * g.spc, out);
    } else {
      ReadSome(g, d, q, buf, out);
    }
  }

  /** Of a longer chain the first part is read. */
  lemma ReadSome(g: Geometry, d: seq<Sector>, q: seq<nat>, buf: seq<Byte>, out: seq<Byte>)
    requires Holds(g, d, q, buf) && |q| > MAX_VISITED
    requires ReadSoFar(Clusters(g, d), q, MAX_VISITED, out, |buf|)
    ensures |out| <= MAX_VISITED * (SECTOR * g.spc)
  {
    hide Fat, Clusters, Carries, NextOf, Fits, Content;
    ClusterSizes(g, d);
    ContentLength(Clusters(g, d), q[..MAX_VISITED], SECTOR * g.spc);
  }

  lemma StartsAtTwo(g: Geometry, d: seq<Sector>, q: seq<nat>, buf: seq<Byte>)
    requires Holds(g, d, q, buf)
    ensures q[0] >= 2
  {
    hide Fat, Clusters, Carries, NextOf;
  }

  /** There are as few clusters as the bytes need. */
  lemma FewClusters(g: Geometry, d: seq<Sector>, q: seq<nat>, buf: seq<Byte>)
    requires Holds(g, d, q, buf)
    ensures |q| <= MAX_VISITED <==> |buf| <= MAX_VISITED * (SECTOR * g.spc)
  {
    hide Fat, Clusters, IsChain, Content;
    var size := SECTOR * g.spc;
    if |q| <= MAX_VISITED {
      MulLe(|q|, MAX_VISITED, size);
    } else {
      MulLe(MAX_VISITED, |q| - 1, size);
    }
  }

  lemma MulLe(a: nat, b: nat, k: nat)
    requires a <= b
    ensures a * k <= b * k
  {
  }
}
