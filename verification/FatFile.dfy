/**
  The data phase of fat_write_file and fat_read_file, and fat_free_cluster_chain: loops
  that follow a chain on the volume and extend, cut or clear it as they go.
 */
module FatFile {
  import opened Prelude
  import opened FatEntry
  import opened FatChain
  import opened FatVolume

  /** The bits of an entry that are not part of its value. */
  function Reserved(kind: Kind, raw: nat): nat { raw / Limit(kind) }

  /** Entries and clusters outside s are as they were, and so are all reserved bits. */
  ghost predicate Untouched(kind: Kind, fat0: seq<nat>, cl0: seq<seq<Byte>>,
                            fat: seq<nat>, cl: seq<seq<Byte>>, s: seq<nat>) {
    && |fat| == |fat0|
    && |cl| == |cl0|
    && (forall c :: 0 <= c < |fat0| && c !in s ==> fat[c] == fat0[c])
    && (forall c :: 0 <= c < |cl0| && c !in s ==> cl[c] == cl0[c])
    && (forall c :: 0 <= c < |fat0| ==> Reserved(kind, fat[c]) == Reserved(kind, fat0[c]))
  }

  /** Every cluster of q belonged to the file before, or was free and in the part of the
      table that is scanned for free entries. */
  ghost predicate Owned(kind: Kind, fat0: seq<nat>, q: seq<nat>, p: seq<nat>) {
    forall i :: 0 <= i < |q| ==> q[i] < |fat0| && (q[i] in p || (Value(kind, fat0[q[i]]) == 0 && q[i] < MAX_SCAN + 2))
  }

  ghost predicate OnVolume(g: Geometry, q: seq<nat>) {
    forall i :: 0 <= i < |q| ==> q[i] < g.total + 2
  }

  /** A chain on the volume as it is now. */
  ghost predicate ChainOn(v: Volume, q: seq<nat>)
    reads v.disk
    requires Fits(v.g, v.disk[..])
  {
    IsChain(v.g.kind, Fat(v.g, v.disk[..]), q) && OnVolume(v.g, q)
  }

  ghost predicate UntouchedOn(v: Volume, fat0: seq<nat>, cl0: seq<seq<Byte>>, s: seq<nat>)
    reads v.disk
    requires Fits(v.g, v.disk[..])
  {
    Untouched(v.g.kind, fat0, cl0, Fat(v.g, v.disk[..]), Clusters(v.g, v.disk[..]), s)
  }

  lemma SetReserved(kind: Kind, fat: seq<nat>, c: nat, v: nat)
    requires kind != Fat12 && c < |fat| && fat[c] < (if kind == Fat32 then 0x1_0000_0000 else 0x1_0000)
    ensures Reserved(kind, Set(kind, fat, c, v)[c]) == Reserved(kind, fat[c])
    ensures Set(kind, fat, c, v)[c] < (if kind == Fat32 then 0x1_0000_0000 else 0x1_0000)
  {
    if kind == Fat32 {
      PatchLaw32(fat[c], v);
    }
  }

  /** Raw entries fit their words. */
  lemma RawBounds(g: Geometry, d: seq<Sector>)
    requires Fits(g, d)
    ensures forall c :: 0 <= c < |Fat(g, d)| ==> Fat(g, d)[c] < (if g.kind == Fat32 then 0x1_0000_0000 else 0x1_0000)
  {
    forall c | 0 <= c < |Fat(g, d)| ensures Fat(g, d)[c] < (if g.kind == Fat32 then 0x1_0000_0000 else 0x1_0000) {
      var k := EntriesPerSector(g.kind);
      assert c / k < g.fatSize;
      assert Fat(g, d)[c] == RawAt(g.kind, d, g.fatStart, g.fatSize, c);
    }
  }

  ghost predicate Bounded(kind: Kind, fat: seq<nat>) {
    forall c :: 0 <= c < |fat| ==> fat[c] < (if kind == Fat32 then 0x1_0000_0000 else 0x1_0000)
  }

  lemma SetUntouched(kind: Kind, fat0: seq<nat>, cl0: seq<seq<Byte>>, fat: seq<nat>, cl: seq<seq<Byte>>, s: seq<nat>,
                     c: nat, v: nat)
    requires kind != Fat12 && Untouched(kind, fat0, cl0, fat, cl, s) && Bounded(kind, fat) && c in s && c < |fat|
    ensures Untouched(kind, fat0, cl0, Set(kind, fat, c, v), cl, s) && Bounded(kind, Set(kind, fat, c, v))
  {
    SetReserved(kind, fat, c, v);
    hide Reserved, Patched;
  }

  lemma UntouchedGrows(kind: Kind, fat0: seq<nat>, cl0: seq<seq<Byte>>, fat: seq<nat>,
                       cl: seq<seq<Byte>>, s: seq<nat>, n: nat)
    requires Untouched(kind, fat0, cl0, fat, cl, s)
    ensures Untouched(kind, fat0, cl0, fat, cl, s + [n])
  {
    hide Reserved;
  }

  /** Linking a free cluster behind a chain touches nothing else; it was free at the start. */
  lemma ExtendOwned(g: Geometry, fat0: seq<nat>, cl0: seq<seq<Byte>>, fat: seq<nat>, cl: seq<seq<Byte>>,
                    full: seq<nat>, n: nat, p: seq<nat>)
    requires g.kind != Fat12 && |fat| <= Limit(g.kind) && g.total + 2 <= |fat| && g.total + 2 <= EndLimit(g.kind)
    requires Bounded(g.kind, fat)
    requires IsChain(g.kind, fat, full) && OnVolume(g, full) && 2 <= n < g.total + 2 && n < MAX_SCAN + 2
    requires Value(g.kind, fat[n]) == 0
    requires Untouched(g.kind, fat0, cl0, fat, cl, full) && Owned(g.kind, fat0, full, p)
    ensures var fat' := Extended(g.kind, fat, full, n);
      && IsChain(g.kind, fat', full + [n]) && OnVolume(g, full + [n])
      && Untouched(g.kind, fat0, cl0, fat', cl, full + [n]) && Owned(g.kind, fat0, full + [n], p)
  {
    ChainExtend(g.kind, fat, full, n);
    assert fat[n] == fat0[n];
    var l := full[|full| - 1];
    hide IsChain, Reserved, Patched, Untouched, Set;
    UntouchedGrows(g.kind, fat0, cl0, fat, cl, full, n);
    SetUntouched(g.kind, fat0, cl0, fat, cl, full + [n], n, EndMark(g.kind));
    SetUntouched(g.kind, fat0, cl0, Set(g.kind, fat, n, EndMark(g.kind)), cl, full + [n], l, n);
  }

  lemma WriteOwned(kind: Kind, fat0: seq<nat>, cl0: seq<seq<Byte>>, fat: seq<nat>, cl: seq<seq<Byte>>, full: seq<nat>,
                   i: nat, x: seq<Byte>)
    requires Untouched(kind, fat0, cl0, fat, cl, full) && i < |full| && full[i] < |cl|
    ensures Untouched(kind, fat0, cl0, fat, cl[full[i] := x], full)
  {
  }

  lemma EndOwned(kind: Kind, fat0: seq<nat>, cl0: seq<seq<Byte>>, fat: seq<nat>,
                 cl: seq<seq<Byte>>, full: seq<nat>, i: nat)
    requires kind != Fat12 && IsChain(kind, fat, full) && Bounded(kind, fat)
    requires Untouched(kind, fat0, cl0, fat, cl, full) && i < |full|
    ensures var fat' := Set(kind, fat, full[i], EndMark(kind));
      IsChain(kind, fat', full[..i + 1]) && Untouched(kind, fat0, cl0, fat', cl, full)
  {
    ChainCut(kind, fat, full, i);
    SetReserved(kind, fat, full[i], EndMark(kind));
    hide Reserved, Patched;
  }

  // ----- The steps of the writer on the volume -----

  /** The cluster behind position i: the next of the chain, or a fresh one linked to it. */
  method NextCluster(v: Volume, cur: nat, ghost full: seq<nat>, ghost i: nat, ghost job: Job)
    returns (next: nat, ghost full': seq<nat>)
    requires Safe(v, job, full) && ChainOn(v, full) && i < |full| && cur == full[i]
    modifies v.disk
    ensures next == 0 ==> OutOfSpace(v, job, full) && |full| == i + 1
    ensures next != 0 ==>
      && Safe(v, job, full') && ChainOn(v, full')
      && full <= full' && i + 1 < |full'| && next == full'[i + 1] && (full' == full || |full'| == i + 2)
      && Clusters(v.g, v.disk[..]) == old(Clusters(v.g, v.disk[..]))
  {
    ghost var fat := Fat(v.g, v.disk[..]);
    assert NextOf(v.g.kind, fat, full[i]) == After(full, i);
    assert full[i] < v.g.total + 2 && 2 <= full[i];
    hide IsChain, Untouched, Owned, OnVolume, Fat, Clusters, Mirrored, Middle, Fits, NextOf, FirstFree;
    var r := v.GetNextCluster(cur);
    if r.Some? {
      next := r.value;
      full' := full;
    } else {
      next, full' := LinkFresh(v, cur, full, job);
    }
  }

  method LinkFresh(v: Volume, cur: nat, ghost full: seq<nat>, ghost job: Job) returns (next: nat, ghost full': seq<nat>)
    requires Safe(v, job, full) && ChainOn(v, full) && cur == full[|full| - 1]
    modifies v.disk
    ensures next == 0 ==> OutOfSpace(v, job, full)
    ensures next != 0 ==>
      && full' == full + [next] && Safe(v, job, full') && ChainOn(v, full')
      && Clusters(v.g, v.disk[..]) == old(Clusters(v.g, v.disk[..]))
  {
    ghost var d0 := v.disk[..];
    ghost var fat := Fat(v.g, d0);
    full' := full;
    assert 2 <= full[|full| - 1] < v.g.total + 2;
    RawBounds(v.g, d0);
    TableSize(v.g, d0);
    assert Bounded(v.g.kind, fat);
    hide IsChain, Untouched, Owned, OnVolume, Fat, Clusters, Mirrored, Middle, Entered, Fits, FirstFree, Set, Bounded,
         Value;
    next := v.AllocFreeCluster();
    if next != 0 {
      ExtendOwned(v.g, job.fat0, job.cl0, fat, Clusters(v.g, d0), full, next, job.p);
      var ok := v.SetFatEntry(cur, next);
      full' := full + [next];
      assert Fat(v.g, v.disk[..]) == Extended(v.g.kind, fat, full, next);
      PrefixTrans(job.p, full, full');
    }
  }

  lemma TableSize(g: Geometry, d: seq<Sector>)
    requires Fits(g, d)
    ensures g.kind != Fat12 && g.total + 2 <= |Fat(g, d)| <= Limit(g.kind) && g.total + 2 <= EndLimit(g.kind)
  {
  }

  lemma PrefixTrans<T>(a: seq<T>, b: seq<T>, c: seq<T>)
    requires a <= b <= c
    ensures a <= c
  {
  }

  /** One cluster of data. */
  method PutCluster(v: Volume, cur: nat, data: seq<Byte>, ghost full: seq<nat>, ghost i: nat, ghost job: Job)
    requires Safe(v, job, full) && ChainOn(v, full) && i < |full| && cur == full[i] && |data| == SECTOR * v.g.spc
    modifies v.disk
    ensures Safe(v, job, full) && ChainOn(v, full)
    ensures Content(Clusters(v.g, v.disk[..]), full[..i + 1])
         == Content(old(Clusters(v.g, v.disk[..])), full[..i]) + data
  {
    ghost var fat, cl := Fat(v.g, v.disk[..]), Clusters(v.g, v.disk[..]);
    assert 2 <= full[i] < v.g.total + 2;
    ContentWrite(cl, full, i, data);
    WriteOwned(v.g.kind, job.fat0, job.cl0, fat, cl, full, i, data);
    hide IsChain, Untouched, Owned, Fat, Clusters, Mirrored, Middle, Fits;
    v.WriteCluster(cur, data);
  }

  /** The end mark cuts the chain behind position i. */
  method EndChain(v: Volume, cur: nat, ghost full: seq<nat>, ghost i: nat, ghost job: Job)
    requires Safe(v, job, full) && ChainOn(v, full) && i < |full| && cur == full[i]
    modifies v.disk
    ensures Safe(v, job, full) && ChainOn(v, full[..i + 1])
    ensures Clusters(v.g, v.disk[..]) == old(Clusters(v.g, v.disk[..]))
  {
    ghost var fat, cl := Fat(v.g, v.disk[..]), Clusters(v.g, v.disk[..]);
    assert 2 <= full[i] < v.g.total + 2;
    RawBounds(v.g, v.disk[..]);
    EndOwned(v.g.kind, job.fat0, job.cl0, fat, cl, full, i);
    hide IsChain, Untouched, Owned, Fat, Clusters, Mirrored, Middle, Fits, Set;
    var ok := v.SetFatEntry(cur, EndMark(v.g.kind));
  }

  /** What the writer may assume of a file: nothing allocated yet, or a chain. */
  ghost predicate FileAt(v: Volume, first: nat, p: seq<nat>)
    reads v.disk
    requires Fits(v.g, v.disk[..])
  {
    if first < 2 then p == [] else p != [] && p[0] == first && ChainOn(v, p)
  }

  ghost function NewJob(v: Volume, p: seq<nat>, buf: seq<Byte>): Job
    reads v.disk
    requires Fits(v.g, v.disk[..])
  {
    Job(Fat(v.g, v.disk[..]), Clusters(v.g, v.disk[..]), p, Mirrored(v.g, v.disk[..]), Middle(v.g, v.disk[..]), buf)
  }

  /** The first cluster of the file: its own, or a fresh one. */
  method FirstCluster(v: Volume, first: nat, ghost p: seq<nat>, ghost job: Job)
    returns (start: nat, ghost full: seq<nat>)
    requires Fits(v.g, v.disk[..]) && FileAt(v, first, p) && job == NewJob(v, p, job.buf)
    modifies v.disk
    ensures start == 0 ==> OutOfSpace(v, job, [])
    ensures start != 0 ==>
      && Safe(v, job, full) && ChainOn(v, full) && full != [] && full[0] == start
      && (|full| == 1 || full == job.p) && (first >= 2 ==> start == first)
  {
    start, full := first, p;
    if first < 2 {
      ghost var d0 := v.disk[..];
      ghost var fat := Fat(v.g, d0);
      TableSize(v.g, d0);
      RawBounds(v.g, d0);
      assert Bounded(v.g.kind, fat);
      hide IsChain, Fat, Clusters, Mirrored, Middle, Entered, Fits, FirstFree, Set, Value, Untouched, Owned, Bounded;
      start := v.AllocFreeCluster();
      FirstOwned(v.g.kind, fat, job.cl0, start);
      if start != 0 {
        full := [start];
      }
    }
  }

  lemma FirstOwned(kind: Kind, fat: seq<nat>, cl: seq<seq<Byte>>, n: nat)
    requires kind != Fat12 && Bounded(kind, fat)
    ensures Untouched(kind, fat, cl, fat, cl, [])
    ensures 2 <= n < |fat| && n < MAX_SCAN + 2 && Value(kind, fat[n]) == 0 ==>
      var fat' := Set(kind, fat, n, EndMark(kind));
      IsChain(kind, fat', [n]) && Untouched(kind, fat, cl, fat', cl, [n]) && Owned(kind, fat, [n], [])
  {
    if 2 <= n < |fat| {
      FreshChain(kind, fat, n);
      hide IsChain, Set;
      SetUntouched(kind, fat, cl, fat, cl, [n], n, EndMark(kind));
    }
  }

  lemma FreshChain(kind: Kind, fat: seq<nat>, n: nat)
    requires kind != Fat12 && 2 <= n < |fat|
    ensures IsChain(kind, Set(kind, fat, n, EndMark(kind)), [n])
  {
    MarkEnds(kind, fat, n);
  }

  // ----- The write loop -----

  /** What a write began with: the table, the clusters, the old chain of the file, whether
      the copies of the table agreed, the root directory, and the bytes to write. */
  datatype Job = Job(fat0: seq<nat>, cl0: seq<seq<Byte>>, p: seq<nat>,
                     mirrored: bool, middle: seq<Sector>, buf: seq<Byte>)

  /** Only clusters of `full` have changed, which were the file's own or free. */
  ghost predicate Safe(v: Volume, job: Job, full: seq<nat>)
    reads v.disk
  {
    && Fits(v.g, v.disk[..])
    && UntouchedOn(v, job.fat0, job.cl0, full)
    && Owned(v.g.kind, job.fat0, full, job.p)
    && job.p <= full
    && (job.mirrored ==> Mirrored(v.g, v.disk[..]))
    && Middle(v.g, v.disk[..]) == job.middle
  }

  /** The scanned part of the table has no free entry left. */
  ghost predicate OutOfSpace(v: Volume, job: Job, full: seq<nat>)
    reads v.disk
  {
    Safe(v, job, full) && FirstFree(v.g.kind, Fat(v.g, v.disk[..]), 2, ScanEnd(v.g)) == None
  }

  /** The clusters of q do not hold n bytes, or there are none. */
  ghost predicate TooFew(g: Geometry, q: seq<nat>, n: nat) { q == [] || |q| * (SECTOR * g.spc) < n }

  /** The clusters of q carry buf, zero-filled, and are as few as possible but at least one. */
  ghost predicate Carries(cl: seq<seq<Byte>>, q: seq<nat>, buf: seq<Byte>, size: nat) {
    && (forall j :: 0 <= j < |q| ==> q[j] < |cl|)
    && |buf| <= |q| * size
    && Content(cl, q) == buf + Zeros(|q| * size - |buf|)
    && (|q| == 1 || (|q| >= 1 && (|q| - 1) * size < |buf|))
  }

  ghost predicate PrefixCarried(v: Volume, full: seq<nat>, i: nat, bytes: seq<Byte>)
    reads v.disk
  {
    i <= |full| && OnVolume(v.g, full) && Content(Clusters(v.g, v.disk[..]), full[..i]) == bytes
  }

  /** The writer in the middle of its work: i clusters of the chain are filled. */
  ghost predicate InProgress(v: Volume, job: Job, written: nat, cur: nat, full: seq<nat>, i: nat)
    reads v.disk
  {
    && Safe(v, job, full)
    && ChainOn(v, full) && i < |full| && cur == full[i]
    && written <= |job.buf| && PrefixCarried(v, full, i, job.buf[..written])
    && (written < |job.buf| || (written == 0 && i == 0))
  }

  /** The file is the chain q, which carries the bytes; it is the old chain cut short, or
      the old chain continued in clusters that were free. */
  ghost predicate Finished(v: Volume, job: Job, q: seq<nat>)
    reads v.disk
  {
    && Safe(v, job, if |job.p| > |q| then job.p else q)
    && q <= (if |job.p| > |q| then job.p else q)
    && ChainOn(v, q)
    && Carries(Clusters(v.g, v.disk[..]), q, job.buf, SECTOR * v.g.spc)
  }

  lemma ClusterSizes(g: Geometry, d: seq<Sector>)
    requires Fits(g, d)
    ensures forall c :: 2 <= c < g.total + 2 ==> |Clusters(g, d)[c]| == SECTOR * g.spc
  {
    forall c | 2 <= c < g.total + 2 ensures |Clusters(g, d)[c]| == SECTOR * g.spc {
      LbaInside(g.dataStart, g.spc, g.total, c);
      var a := Lba(g.dataStart, g.spc, c);
      FlattenLength(d[a..a + g.spc]);
    }
  }

  lemma CarriesAll(g: Geometry, d: seq<Sector>, fat: seq<nat>, q: seq<nat>, buf: seq<Byte>, z: nat)
    requires Fits(g, d) && IsChain(g.kind, fat, q) && OnVolume(g, q)
    requires Content(Clusters(g, d), q) == buf + Zeros(z)
    requires z < SECTOR * g.spc || (|buf| == 0 && |q| == 1)
    ensures Carries(Clusters(g, d), q, buf, SECTOR * g.spc)
  {
    ClusterSizes(g, d);
    assert forall j :: 0 <= j < |q| ==> 2 <= q[j];
    hide Fits, Clusters, IsChain, Carries;
    CarriesFrom(Clusters(g, d), q, buf, z, SECTOR * g.spc);
  }

  lemma CarriesFrom(cl: seq<seq<Byte>>, q: seq<nat>, buf: seq<Byte>, z: nat, size: nat)
    requires q != [] && forall j :: 0 <= j < |q| ==> q[j] < |cl| && |cl[q[j]]| == size
    requires Content(cl, q) == buf + Zeros(z)
    requires z < size || (|buf| == 0 && |q| == 1)
    ensures Carries(cl, q, buf, size)
  {
    ContentLength(cl, q, size);
    hide Content;
    LastPart(|buf|, z, |q|, size);
    assert z == |q| * size - |buf|;
  }

  lemma LastPart(n: nat, z: nat, k: nat, size: nat)
    requires n + z == k * size && k >= 1
    ensures n <= k * size && (z < size ==> (k - 1) * size < n)
  {
    assert (k - 1) * size == k * size - size;
  }

  datatype Round = Done | Full | More

  lemma SizePositive(v: Volume)
    requires Fits(v.g, v.disk[..])
    ensures v.g.spc >= 1
  {
  }

  lemma ChunkJoins(buf: seq<Byte>, written: nat, chunk: nat, z: nat)
    requires written + chunk <= |buf|
    ensures buf[..written] + (buf[written..written + chunk] + Zeros(z)) == buf[..written + chunk] + Zeros(z)
  {
  }

  /** Fill one cluster. */
  method FillCluster(v: Volume, buf: seq<Byte>, written: nat, cur: nat, ghost full: seq<nat>, ghost i: nat,
                     ghost job: Job)
    returns (chunk: nat)
    requires InProgress(v, job, written, cur, full, i) && buf == job.buf
    modifies v.disk
    ensures Safe(v, job, full) && ChainOn(v, full)
    ensures var size := SECTOR * v.g.spc;
      && size >= SECTOR
      && chunk == (if size < |buf| - written then size else |buf| - written)
      && PrefixCarried(v, full, i + 1, buf[..written + chunk] + Zeros(size - chunk))
  {
    hide Fits, Fat, Clusters, Mirrored, Middle, IsChain, Untouched, Owned, Content;
    SizePositive(v);
    var size := SECTOR * v.g.spc;
    chunk := if size < |buf| - written then size else |buf| - written;
    var data := buf[written..written + chunk] + Zeros(size - chunk);
    ChunkJoins(buf, written, chunk, size - chunk);
    hide Zeros, Safe;
    PutCluster(v, cur, data, full, i, job);
  }

  /** The last round: cut the chain. */
  method Finish(v: Volume, cur: nat, ghost full: seq<nat>, ghost i: nat, ghost job: Job, ghost z: nat)
    requires Safe(v, job, full) && ChainOn(v, full) && i < |full| && cur == full[i]
    requires |full| == i + 1 || full == job.p
    requires PrefixCarried(v, full, i + 1, job.buf + Zeros(z)) && (z < SECTOR * v.g.spc || (|job.buf| == 0 && i == 0))
    modifies v.disk
    ensures Finished(v, job, full[..i + 1])
  {
    hide Fits, Fat, Clusters, Mirrored, Middle, IsChain, Untouched, Owned, Carries;
    EndChain(v, cur, full, i, job);
    assert |full| == i + 1 ==> full[..i + 1] == full;
    CarriesAll(v.g, v.disk[..], Fat(v.g, v.disk[..]), full[..i + 1], job.buf, z);
  }

  /** One round of the write loop. */
  method WriteRound(v: Volume, buf: seq<Byte>, written: nat, cur: nat, ghost full: seq<nat>, ghost i: nat,
                    ghost job: Job)
    returns (r: Round, written': nat, cur': nat, ghost full': seq<nat>)
    requires InProgress(v, job, written, cur, full, i) && buf == job.buf
    requires |full| == i + 1 || full == job.p
    modifies v.disk
    ensures full' != [] && full'[0] == full[0]
    ensures match r
            case Done => Finished(v, job, full')
            case Full => OutOfSpace(v, job, full') && TooFew(v.g, full', |buf|)
            case More => written < written' < |buf| && InProgress(v, job, written', cur', full', i + 1)
                         && (|full'| == i + 2 || full' == job.p)
  {
    hide Fits, Fat, Clusters, Mirrored, Middle, IsChain, Untouched, Owned, FirstFree, Carries, Content;
    var chunk := FillCluster(v, buf, written, cur, full, i, job);
    var size := SECTOR * v.g.spc;
    written' := written + if chunk > 0 then chunk else size;
    cur', full' := cur, full;
    if written' >= |buf| {
      assert buf[..written + chunk] == buf;
      Finish(v, cur, full, i, job, size - chunk);
      full' := full[..i + 1];
      r := Done;
    } else {
      assert buf[..written'] + Zeros(0) == buf[..written'];
      FilledLength(v, full, i + 1, buf[..written']);
      cur', full' := NextCluster(v, cur, full, i, job);
      if cur' == 0 {
        full' := full;
        r := Full;
      } else {
        assert full'[..i + 1] == full[..i + 1];
        r := More;
      }
    }
  }

  method WriteLoop(v: Volume, start: nat, buf: seq<Byte>, ghost full: seq<nat>, ghost job: Job)
    returns (ok: bool, ghost q: seq<nat>)
    requires InProgress(v, job, 0, start, full, 0) && buf == job.buf && (|full| == 1 || full == job.p)
    modifies v.disk
    ensures if ok then Finished(v, job, q) && q != [] && q[0] == start
            else OutOfSpace(v, job, q) && TooFew(v.g, q, |buf|)
  {
    q := full;
    assert q != [] && q[0] == start;
    hide InProgress, Finished, OutOfSpace, TooFew;
    var written := 0;
    var cur := start;
    ghost var i := 0;
    var r := More;
    while r == More && (written < |buf| || written == 0)
      invariant q != [] && start == q[0]
      invariant match r
                case Done => Finished(v, job, q)
                case Full => OutOfSpace(v, job, q) && TooFew(v.g, q, |buf|)
                case More =>
                  && InProgress(v, job, written, cur, q, i) && (|q| == i + 1 || q == job.p)
                  && (written < |buf| || written == 0)
      decreases r == More, |buf| + 1 - written
    {
      r, written, cur, q := WriteRound(v, buf, written, cur, q, i, job);
      i := i + 1;
    }
    ok := r == Done;
  }

  // ----- When a write succeeds -----

  ghost predicate UsedIn(kind: Kind, fat: seq<nat>, p: seq<nat>) {
    forall i :: 0 <= i < |p| ==> 2 <= p[i] < |fat| && Value(kind, fat[p[i]]) != 0
  }

  /** The free clusters among the first 32768. */
  ghost function FreeClusters(g: Geometry, fat: seq<nat>): set<nat> {
    set c | 2 <= c < 2 + Min(g.total, 32768) && c < |fat| && Value(g.kind, fat[c]) == 0
  }

  /** The file's own clusters and the free ones hold n bytes, and there is at least one. */
  ghost predicate HasRoom(g: Geometry, fat: seq<nat>, p: seq<nat>, n: nat) {
    var k := |p| + |FreeClusters(g, fat)|;
    k >= 1 && n <= k * (512 * g.spc)
  }

  lemma OldChainUsed(v: Volume, first: nat, p: seq<nat>)
    requires Fits(v.g, v.disk[..]) && FileAt(v, first, p)
    ensures UsedIn(v.g.kind, Fat(v.g, v.disk[..]), p)
  {
    hide Fat, NextOf;
  }

  /** What the clusters filled so far hold. */
  lemma FilledLength(v: Volume, full: seq<nat>, i: nat, bytes: seq<Byte>)
    requires Fits(v.g, v.disk[..]) && ChainOn(v, full) && PrefixCarried(v, full, i, bytes)
    ensures |bytes| == i * (SECTOR * v.g.spc)
  {
    ClusterSizes(v.g, v.disk[..]);
    assert forall j :: 0 <= j < |full| ==> 2 <= full[j] < v.g.total + 2;
    hide Fits, Clusters, IsChain, Content;
    ContentLength(Clusters(v.g, v.disk[..]), full[..i], SECTOR * v.g.spc);
  }

  lemma FinishedFits(v: Volume, job: Job, q: seq<nat>)
    requires Finished(v, job, q)
    ensures HasRoom(v.g, job.fat0, job.p, |job.buf|)
  {
    hide FreeClusters, Finished, Owned, Distinct, HasRoom;
    FinishedFacts(v, job, q);
    if |q| > |job.p| { TakenWereFree(v.g, job.fat0, job.p, q); }
    EnoughRoom(v.g, job.fat0, job.p, |q|, |job.buf|);
  }

  lemma FinishedFacts(v: Volume, job: Job, q: seq<nat>)
    requires Finished(v, job, q)
    ensures |q| >= 1 && Distinct(q) && |job.buf| <= |q| * (SECTOR * v.g.spc)
    ensures forall i :: 0 <= i < |q| ==> 2 <= q[i] < v.g.total + 2
    ensures |q| > |job.p| ==> job.p <= q && Owned(v.g.kind, job.fat0, q, job.p)
  {
    hide Fits, Fat, Clusters, Mirrored, Middle, Untouched, Content, NextOf, Owned;
  }

  lemma EnoughRoom(g: Geometry, fat: seq<nat>, p: seq<nat>, k: nat, n: nat)
    requires 1 <= k <= |p| + |FreeClusters(g, fat)| && n <= k * (SECTOR * g.spc)
    ensures HasRoom(g, fat, p, n)
  {
    hide FreeClusters;
    Product(k, |p| + |FreeClusters(g, fat)|, SECTOR * g.spc);
  }

  lemma Product(a: nat, b: nat, k: nat)
    requires a <= b
    ensures a * k <= b * k
  {
  }

  lemma TakenWereFree(g: Geometry, fat0: seq<nat>, p: seq<nat>, q: seq<nat>)
    requires Distinct(q) && p <= q && Owned(g.kind, fat0, q, p)
    requires forall i :: 0 <= i < |q| ==> 2 <= q[i] < g.total + 2
    ensures |q| <= |p| + |FreeClusters(g, fat0)|
  {
    var s := Elements(q[|p|..]);
    var free := FreeClusters(g, fat0);
    forall c | c in s ensures c in free {
      var i :| |p| <= i < |q| && q[i] == c;
      assert forall j :: 0 <= j < |p| ==> q[j] == p[j];
    }
    ElementCount(q[|p|..]);
    SubsetSize(s, free);
  }

  ghost function Elements(q: seq<nat>): set<nat> { set c | c in q }

  lemma {:induction false} ElementCount(q: seq<nat>)
    ensures |Elements(q)| <= |q| && (Distinct(q) ==> |Elements(q)| == |q|)
  {
    if q != [] {
      var r := q[..|q| - 1];
      var x := q[|q| - 1];
      ElementCount(r);
      assert q == r + [x];
      assert Elements(q) == Elements(r) + {x};
      if Distinct(q) {
        assert Distinct(r);
        assert x !in r;
      }
    }
  }

  lemma {:induction false} SubsetSize(a: set<nat>, b: set<nat>)
    requires a <= b
    ensures |a| <= |b|
  {
    if a != {} {
      var x :| x in a;
      SubsetSize(a - {x}, b - {x});
    }
  }

  lemma FullLacks(v: Volume, job: Job, full: seq<nat>)
    requires OutOfSpace(v, job, full) && TooFew(v.g, full, |job.buf|)
    requires UsedIn(v.g.kind, job.fat0, job.p)
    ensures !HasRoom(v.g, job.fat0, job.p, |job.buf|)
  {
    ScanInside(v.g, v.disk[..]);
    hide Fits, Fat, Clusters, Mirrored, Middle, Owned, Reserved;
    AllFreeTaken(v.g, job.fat0, Fat(v.g, v.disk[..]), job.p, full);
    var k := |job.p| + |FreeClusters(v.g, job.fat0)|;
    hide FreeClusters;
    Product(k, |full|, SECTOR * v.g.spc);
  }

  lemma AllFreeTaken(g: Geometry, fat0: seq<nat>, fat: seq<nat>, p: seq<nat>, full: seq<nat>)
    requires p <= full && |fat| == |fat0| && ScanEnd(g) <= |fat| && UsedIn(g.kind, fat0, p)
    requires forall c :: 0 <= c < |fat0| && c !in full ==> fat[c] == fat0[c]
    requires FirstFree(g.kind, fat, 2, ScanEnd(g)) == None
    ensures |p| + |FreeClusters(g, fat0)| <= |full|
  {
    var free := FreeClusters(g, fat0);
    var rest := full[|p|..];
    forall c | c in free ensures c in rest {
      assert c < ScanEnd(g) && c in full;
      var i :| 0 <= i < |full| && full[i] == c;
      assert c !in p;
      assert rest[i - |p|] == c;
    }
    SubsetSize(free, Elements(rest));
    ElementCount(rest);
  }

  /** The data phase of fat_write_file. */
  method WriteData(v: Volume, first: nat, buf: seq<Byte>, ghost p: seq<nat>)
    returns (ok: bool, start: nat, ghost q: seq<nat>, ghost job: Job)
    requires Fits(v.g, v.disk[..]) && FileAt(v, first, p)
    modifies v.disk
    ensures job == old(NewJob(v, p, buf))
    ensures if ok then Finished(v, job, q) && q != [] && q[0] == start && (first >= 2 ==> start == first)
            else OutOfSpace(v, job, q)
    ensures ok <==> HasRoom(v.g, old(Fat(v.g, v.disk[..])), p, |buf|)
  {
    ghost var fat := Fat(v.g, v.disk[..]);
    OldChainUsed(v, first, p);
    job := NewJob(v, p, buf);
    hide Fits, Fat, Clusters, Mirrored, Middle, IsChain, Untouched, Owned, FirstFree, Carries, Content, Finished,
         HasRoom, Safe, UsedIn;
    start, q := FirstCluster(v, first, p, job);
    if start == 0 {
      ok, q := false, [];
    } else {
      BeginWrite(v, job, q);
      ok, q := WriteLoop(v, start, buf, q, job);
    }
    if ok {
      FinishedFits(v, job, q);
    } else {
      FullLacks(v, job, q);
    }
  }

  lemma BeginWrite(v: Volume, job: Job, full: seq<nat>)
    requires Safe(v, job, full) && ChainOn(v, full)
    ensures InProgress(v, job, 0, full[0], full, 0)
  {
    assert full[..0] == [] && job.buf[..0] == [];
  }

  /** The chain and the contents of every other file are as before, whether the write
      succeeded or ran out of space. */
  lemma OtherFileKept(v: Volume, job: Job, full: seq<nat>, r: seq<nat>)
    requires Safe(v, job, full) && |job.cl0| == v.g.total + 2
    requires IsChain(v.g.kind, job.fat0, r) && OnVolume(v.g, r) && forall i :: 0 <= i < |r| ==> r[i] !in job.p
    ensures ChainOn(v, r)
    ensures Content(Clusters(v.g, v.disk[..]), r) == Content(job.cl0, r)
  {
    forall i | 0 <= i < |r| ensures r[i] !in full {
      assert Value(v.g.kind, job.fat0[r[i]]) != 0;
    }
    ChainKept(v.g.kind, job.fat0, Fat(v.g, v.disk[..]), r);
    ContentKept(job.cl0, Clusters(v.g, v.disk[..]), r);
  }

  // ----- fat_read_file -----

  function Upto(s: seq<Byte>, n: nat): seq<Byte> { if n <= |s| then s[..n] else s }

  /** After i clusters: the bytes so far, cut off at toRead. */
  ghost predicate ReadSoFar(cl: seq<seq<Byte>>, q: seq<nat>, i: nat, out: seq<Byte>, toRead: nat) {
    && i <= |q|
    && (forall j :: 0 <= j < |q| ==> q[j] < |cl|)
    && out == Upto(Content(cl, q[..i]), toRead)
  }

  lemma ReadStep(cl: seq<seq<Byte>>, q: seq<nat>, i: nat, out: seq<Byte>, toRead: nat)
    requires ReadSoFar(cl, q, i, out, toRead) && i < |q| && |out| < toRead
    ensures var data := cl[q[i]];
      ReadSoFar(cl, q, i + 1, out + data[..Min(|data|, toRead - |out|)], toRead)
  {
    assert q[..i + 1][..i] == q[..i];
  }

  lemma ReadBegin(v: Volume, q: seq<nat>, toRead: nat)
    requires Fits(v.g, v.disk[..]) && ChainOn(v, q)
    ensures ReadSoFar(Clusters(v.g, v.disk[..]), q, 0, [], toRead)
  {
    assert q[..0] == [];
  }

  lemma ReadAll(cl: seq<seq<Byte>>, q: seq<nat>, buf: seq<Byte>, size: nat, out: seq<Byte>)
    requires Carries(cl, q, buf, size) && ReadSoFar(cl, q, |q|, out, |buf|)
    ensures out == buf
  {
    assert q[..|q|] == q;
  }

  /** Once enough is read, further clusters make no difference. */
  lemma {:induction false} ReadEnough(cl: seq<seq<Byte>>, q: seq<nat>, i: nat, j: nat, out: seq<Byte>, toRead: nat)
    requires ReadSoFar(cl, q, i, out, toRead) && |out| >= toRead && i <= j <= |q|
    ensures ReadSoFar(cl, q, j, out, toRead)
    decreases j - i
  {
    if i < j {
      assert q[..i + 1][..i] == q[..i];
      ReadEnough(cl, q, i + 1, j, out, toRead);
    }
  }

  /** One round of the read loop; None when the walk is over. */
  method ReadRound(v: Volume, cur: nat, out: seq<Byte>, toRead: nat, ghost q: seq<nat>, ghost i: nat)
    returns (out': seq<Byte>, next: Option<nat>)
    requires Fits(v.g, v.disk[..]) && ChainOn(v, q) && i < |q| && cur == q[i] && |out| < toRead
    requires ReadSoFar(Clusters(v.g, v.disk[..]), q, i, out, toRead)
    ensures ReadSoFar(Clusters(v.g, v.disk[..]), q, i + 1, out', toRead)
    ensures next.Some? ==> i + 1 < |q| && next.value == q[i + 1]
    ensures next.None? ==> i + 1 == |q| || |out'| >= toRead
  {
    assert NextOf(v.g.kind, Fat(v.g, v.disk[..]), q[i]) == After(q, i);
    assert 2 <= q[i] < v.g.total + 2;
    ReadStep(Clusters(v.g, v.disk[..]), q, i, out, toRead);
    hide Fits, Fat, Clusters, IsChain, ReadSoFar, NextOf;
    var data := v.ReadCluster(cur);
    out' := out + data[..Min(|data|, toRead - |out|)];
    if |out'| >= toRead {
      next := None;
    } else {
      next := v.GetNextCluster(cur);
    }
  }

  /** Follow the chain and collect at most toRead bytes from at most 65536 clusters. */
  method ReadData(v: Volume, start: nat, toRead: nat, ghost q: seq<nat>) returns (out: seq<Byte>)
    requires Fits(v.g, v.disk[..]) && q != [] && ChainOn(v, q) && start == q[0]
    ensures ReadSoFar(Clusters(v.g, v.disk[..]), q, Min(|q|, 65536), out, toRead)
  {
    hide Fits, Fat, Clusters, IsChain, ReadSoFar, ChainOn;
    ghost var cl := Clusters(v.g, v.disk[..]);
    ReadBegin(v, q, toRead);
    out := [];
    var cur := Some(start);
    var visited := 0;
    while cur.Some? && |out| < toRead && visited < MAX_VISITED
      invariant visited <= Min(|q|, MAX_VISITED)
      invariant ReadSoFar(cl, q, visited, out, toRead)
      invariant cur.Some? ==> visited < |q| && cur.value == q[visited]
      invariant cur.None? ==> visited == |q| || |out| >= toRead
      decreases MAX_VISITED - visited
    {
      out, cur := ReadRound(v, cur.value, out, toRead, q, visited);
      visited := visited + 1;
    }
    if |out| >= toRead {
      ReadEnough(cl, q, visited, Min(|q|, MAX_VISITED), out, toRead);
    }
  }

  /** What was written is what is read: always for a new file, and for an old one as long as
      it has at most 65536 clusters. */
  method WriteThenRead(v: Volume, first: nat, buf: seq<Byte>, ghost p: seq<nat>)
    returns (ok: bool, out: seq<Byte>, ghost q: seq<nat>)
    requires Fits(v.g, v.disk[..]) && FileAt(v, first, p)
    modifies v.disk
    ensures ok && (first < 2 || |q| <= 65536) ==> out == buf
    ensures ok ==> |q| * (SECTOR * v.g.spc) < |buf| + SECTOR * v.g.spc || |q| == 1
  {
    hide Fits, Fat, Clusters, IsChain, Safe, ReadSoFar, Carries, ChainOn, Finished, HasRoom, FileAt, OutOfSpace;
    NoChainYet(v, first, p);
    var start;
    ghost var job;
    ok, start, q, job := WriteData(v, first, buf, p);
    out := [];
    if ok {
      WrittenFacts(v, job, q);
      CarriesLength(Clusters(v.g, v.disk[..]), q, buf, SECTOR * v.g.spc);
      out := ReadData(v, start, |buf|, q);
      if |q| <= MAX_VISITED {
        ReadAll(Clusters(v.g, v.disk[..]), q, buf, SECTOR * v.g.spc, out);
      }
    }
  }

  lemma NoChainYet(v: Volume, first: nat, p: seq<nat>)
    requires Fits(v.g, v.disk[..]) && FileAt(v, first, p)
    ensures first < 2 ==> p == []
  {
    hide Fits;
  }

  lemma WrittenFacts(v: Volume, job: Job, q: seq<nat>)
    requires Finished(v, job, q)
    ensures Fits(v.g, v.disk[..]) && ChainOn(v, q)
    ensures Carries(Clusters(v.g, v.disk[..]), q, job.buf, SECTOR * v.g.spc)
    ensures job.p == [] ==> |q| <= 32768
  {
    hide Fits, Fat, Clusters, IsChain, Carries, Untouched, Owned, Mirrored, Middle, ChainOn;
    if job.p == [] { FreshLength(v, job, q); }
  }

  lemma CarriesLength(cl: seq<seq<Byte>>, q: seq<nat>, buf: seq<Byte>, size: nat)
    requires Carries(cl, q, buf, size)
    ensures |q| * size < |buf| + size || |q| == 1
  {
    assert (|q| - 1) * size == |q| * size - size;
  }

  // ----- fat_free_cluster_chain -----

  /** Clusters of the volume that no link leaves. */
  ghost predicate ClosedSet(g: Geometry, fat: seq<nat>, s: set<nat>) {
    forall c :: c in s ==>
      && 2 <= c < g.total + 2 && c < |fat|
      && (NextOf(g.kind, fat, c).Some? ==> NextOf(g.kind, fat, c).value in s)
  }

  /** q is the way from start along the links, without repetition. */
  ghost predicate Walk(kind: Kind, fat: seq<nat>, start: nat, q: seq<nat>) {
    && q != [] && q[0] == start && Distinct(q)
    && (forall i :: 0 <= i < |q| ==> q[i] < |fat|)
    && (forall i :: 0 <= i < |q| - 1 ==> NextOf(kind, fat, q[i]) == After(q, i))
  }

  /** Every link out of the walk leads back into it. */
  ghost predicate Exhausted(kind: Kind, fat: seq<nat>, q: seq<nat>) {
    forall i :: 0 <= i < |q| && q[i] < |fat| && NextOf(kind, fat, q[i]).Some? ==> NextOf(kind, fat, q[i]).value in q
  }

  /** Exactly the entries of q are cleared, their reserved bits kept. */
  ghost predicate ClearedAt(kind: Kind, fat0: seq<nat>, fat: seq<nat>, q: seq<nat>) {
    && |fat| == |fat0|
    && (forall c :: 0 <= c < |fat0| ==> fat[c] == if c in q then Patched(kind, fat0[c], c, 0) else fat0[c])
  }

  lemma ClearedNext(kind: Kind, fat0: seq<nat>, fat: seq<nat>, q: seq<nat>, c: nat)
    requires kind != Fat12 && ClearedAt(kind, fat0, fat, q) && c < |fat|
    ensures NextOf(kind, fat, c) == if c in q then None else NextOf(kind, fat0, c)
  {
    if c in q { SetValue(kind, fat0, c, 0); }
  }

  lemma ClearMore(kind: Kind, fat0: seq<nat>, fat: seq<nat>, q: seq<nat>, c: nat)
    requires kind != Fat12 && ClearedAt(kind, fat0, fat, q) && c < |fat|
    ensures ClearedAt(kind, fat0, Set(kind, fat, c, 0), if c in q then q else q + [c])
  {
    if kind == Fat32 {
      DivMod(Patched(kind, fat0[c], c, 0), 0x1000_0000, fat0[c] / 0x1000_0000, 0);
    }
  }

  /** Where the clearing loop stands: the walk so far is cleared and cur comes next. */
  ghost predicate Clearing(v: Volume, fat0: seq<nat>, start: nat, s: set<nat>, q: seq<nat>, cur: Option<nat>)
    reads v.disk
  {
    Fits(v.g, v.disk[..]) && ClearingOn(v.g, fat0, Fat(v.g, v.disk[..]), start, s, q, cur)
  }

  ghost predicate ClearingOn(g: Geometry, fat0: seq<nat>, fat: seq<nat>, start: nat,
                             s: set<nat>, q: seq<nat>, cur: Option<nat>) {
    && ClosedSet(g, fat0, s)
    && ClearedAt(g.kind, fat0, fat, q)
    && (cur.Some? ==> cur.value in s)
    && (if q == [] then cur == Some(start) else Walk(g.kind, fat0, start, q))
    && (q != [] && cur.Some? ==> NextOf(g.kind, fat0, q[|q| - 1]) == cur)
    && (cur.None? ==> Exhausted(g.kind, fat0, q))
  }

  /** A walk whose last link ends, or leads back into it, is exhausted. */
  lemma WalkInside(kind: Kind, fat: seq<nat>, start: nat, q: seq<nat>)
    requires Walk(kind, fat, start, q)
    requires var l := NextOf(kind, fat, q[|q| - 1]); l.None? || l.value in q
    ensures Exhausted(kind, fat, q)
  {
    hide NextOf, Distinct;
    forall i | 0 <= i < |q| && NextOf(kind, fat, q[i]).Some? ensures NextOf(kind, fat, q[i]).value in q {
      if i < |q| - 1 { assert After(q, i) == Some(q[i + 1]); }
    }
  }

  lemma WalkGrows(kind: Kind, fat: seq<nat>, start: nat, q: seq<nat>, cur: nat)
    requires Walk(kind, fat, start, q) && NextOf(kind, fat, q[|q| - 1]) == Some(cur) && cur !in q && cur < |fat|
    ensures Walk(kind, fat, start, q + [cur])
  {
    hide NextOf;
    var q' := q + [cur];
    forall i | 0 <= i < |q'| - 1 ensures NextOf(kind, fat, q'[i]) == After(q', i) {
      if i < |q| - 1 { assert NextOf(kind, fat, q[i]) == After(q, i); }
    }
  }

  lemma ClearingStep(g: Geometry, fat0: seq<nat>, fat: seq<nat>, start: nat, s: set<nat>, q: seq<nat>, cur: nat)
    requires g.kind != Fat12 && ClearingOn(g, fat0, fat, start, s, q, Some(cur))
    ensures 2 <= cur < g.total + 2 && cur < |fat|
    ensures cur in q ==> NextOf(g.kind, fat, cur) == None
    ensures ClearingOn(g, fat0, Set(g.kind, fat, cur, 0), start, s, if cur in q then q else q + [cur],
                       NextOf(g.kind, fat, cur))
  {
    ClearedNext(g.kind, fat0, fat, q, cur);
    ClearMore(g.kind, fat0, fat, q, cur);
    assert cur < |fat0| && (NextOf(g.kind, fat0, cur).Some? ==> NextOf(g.kind, fat0, cur).value in s);
    hide NextOf, ClosedSet, ClearedAt, Exhausted, Set;
    if cur in q {
      WalkInside(g.kind, fat0, start, q);
    } else {
      if q != [] { WalkGrows(g.kind, fat0, start, q, cur); }
      if NextOf(g.kind, fat0, cur).None? { WalkInside(g.kind, fat0, start, q + [cur]); }
    }
  }

  lemma ChainNext(kind: Kind, fat: seq<nat>, p: seq<nat>, i: nat)
    requires IsChain(kind, fat, p) && i < |p|
    ensures p[i] < |fat| && NextOf(kind, fat, p[i]) == After(p, i)
  {
    hide NextOf, Distinct, After;
  }

  lemma WalkNext(kind: Kind, fat: seq<nat>, start: nat, q: seq<nat>, i: nat)
    requires Walk(kind, fat, start, q) && i < |q| - 1
    ensures q[i] < |fat| && NextOf(kind, fat, q[i]) == After(q, i)
  {
    hide NextOf, Distinct, After;
  }

  lemma {:induction false} WalkOnChain(kind: Kind, fat: seq<nat>, p: seq<nat>, q: seq<nat>, n: nat)
    requires IsChain(kind, fat, p) && Walk(kind, fat, p[0], q) && n < |q|
    ensures n < |p| && forall i :: 0 <= i <= n ==> q[i] == p[i]
  {
    assert q[0] == p[0];
    hide IsChain, Walk, NextOf, Distinct, After;
    if n > 0 {
      WalkOnChain(kind, fat, p, q, n - 1);
      ChainNext(kind, fat, p, n - 1);
      WalkNext(kind, fat, p[0], q, n - 1);
      AfterSame(p, q, n - 1);
    }
  }

  lemma AfterSame(p: seq<nat>, q: seq<nat>, i: nat)
    requires After(p, i) == After(q, i) && i + 1 < |q|
    ensures i + 1 < |p| && p[i + 1] == q[i + 1]
  {
  }

  /** From the first cluster of a chain there is one exhausted walk, the chain itself. */
  lemma WalkIsChain(kind: Kind, fat: seq<nat>, p: seq<nat>, q: seq<nat>)
    requires IsChain(kind, fat, p) && Walk(kind, fat, p[0], q)
    ensures q <= p && (Exhausted(kind, fat, q) ==> q == p)
  {
    var l := |q| - 1;
    WalkOnChain(kind, fat, p, q, l);
    ChainNext(kind, fat, p, l);
    assert Distinct(p);
    hide IsChain, Walk, NextOf;
  }

  /** One round: read the link, clear the entry, go on. */
  method ClearRound(v: Volume, cur: nat, ghost fat0: seq<nat>, ghost start: nat, ghost s: set<nat>, ghost q: seq<nat>)
    returns (next: Option<nat>, ghost q': seq<nat>)
    requires Clearing(v, fat0, start, s, q, Some(cur))
    modifies v.disk
    ensures Clearing(v, fat0, start, s, q', next)
    ensures q' == if cur in q then q else q + [cur]
    ensures cur in q ==> next == None
    ensures Clusters(v.g, v.disk[..]) == old(Clusters(v.g, v.disk[..]))
    ensures old(Mirrored(v.g, v.disk[..])) ==> Mirrored(v.g, v.disk[..])
  {
    hide Fits, Fat, Clusters, Mirrored, Middle, NextOf, Set, ClearingOn;
    TableSize(v.g, v.disk[..]);
    ClearingStep(v.g, fat0, Fat(v.g, v.disk[..]), start, s, q, cur);
    q' := if cur in q then q else q + [cur];
    next := v.GetNextCluster(cur);
    var ok := v.SetFatEntry(cur, 0);
  }

  /** On any table: the entries on the walk from start are cleared and no others; the loop
      stops on its own once the links are exhausted, cycles included, unless it reaches
      65536 clusters first. */
  method FreeClusterChain(v: Volume, start: nat, ghost s: set<nat>) returns (ghost q: seq<nat>)
    requires Fits(v.g, v.disk[..]) && ClosedSet(v.g, Fat(v.g, v.disk[..]), s) && start in s
    modifies v.disk
    ensures Fits(v.g, v.disk[..])
    ensures ClearedAt(v.g.kind, old(Fat(v.g, v.disk[..])), Fat(v.g, v.disk[..]), q)
    ensures Walk(v.g.kind, old(Fat(v.g, v.disk[..])), start, q)
    ensures |q| <= 65536 && (|q| < 65536 ==> Exhausted(v.g.kind, old(Fat(v.g, v.disk[..])), q))
    ensures Clusters(v.g, v.disk[..]) == old(Clusters(v.g, v.disk[..]))
    ensures old(Mirrored(v.g, v.disk[..])) ==> Mirrored(v.g, v.disk[..])
  {
    ghost var fat0 := Fat(v.g, v.disk[..]);
    q := [];
    hide Fits, Fat, Clusters, Mirrored, Middle, Walk, Exhausted, ClosedSet, NextOf, Patched;
    var cur := Some(start);
    var visited := 0;
    assert Clearing(v, fat0, start, s, q, cur);
    while cur.Some? && visited < MAX_VISITED
      invariant 0 <= visited <= MAX_VISITED
      invariant Clearing(v, fat0, start, s, q, cur)
      invariant if cur.Some? then |q| == visited else 1 <= |q| <= visited
      invariant Clusters(v.g, v.disk[..]) == old(Clusters(v.g, v.disk[..]))
      invariant old(Mirrored(v.g, v.disk[..])) ==> Mirrored(v.g, v.disk[..])
      decreases MAX_VISITED - visited
    {
      hide ClearedAt, Clearing;
      cur, q := ClearRound(v, cur.value, fat0, start, s, q);
      visited := visited + 1;
    }
  }

  // ----- Writing a new file and deleting it -----

  /** A set of entries that were free, written and then cleared, is as before. */
  lemma FreshRestored(kind: Kind, fat0: seq<nat>, cl0: seq<seq<Byte>>, fat1: seq<nat>, cl1: seq<seq<Byte>>,
                      fat2: seq<nat>, q: seq<nat>)
    requires kind != Fat12 && Bounded(kind, fat0)
    requires Untouched(kind, fat0, cl0, fat1, cl1, q) && Owned(kind, fat0, q, []) && ClearedAt(kind, fat1, fat2, q)
    ensures fat2 == fat0
  {
    forall c | 0 <= c < |fat0| ensures fat2[c] == fat0[c] {
      if c in q {
        assert Value(kind, fat0[c]) == 0;
        assert Reserved(kind, fat1[c]) == Reserved(kind, fat0[c]);
      }
    }
  }

  ghost predicate SameTables(g: Geometry, d0: seq<Sector>, d: seq<Sector>) {
    |d| == |d0| && forall i :: g.fatStart <= i < TablesEnd(g) && i < |d| ==> d[i] == d0[i]
  }

  /** Equal entries mean equal sectors, in both copies if they agree. */
  lemma TableBytes(g: Geometry, d0: seq<Sector>, d: seq<Sector>)
    requires Fits(g, d0) && Fits(g, d) && |d| == |d0| && Fat(g, d) == Fat(g, d0) && Mirrored(g, d0) && Mirrored(g, d)
    ensures SameTables(g, d0, d)
  {
    var k := EntriesPerSector(g.kind);
    forall i | g.fatStart <= i < g.fatStart + g.fatSize ensures d[i] == d0[i] {
      forall j | 0 <= j < k ensures RawIn(g.kind, d[i], j) == RawIn(g.kind, d0[i], j) {
        var c := k * (i - g.fatStart) + j;
        MulGrows(i - g.fatStart, g.fatSize, k);
        DivMod(c, k, i - g.fatStart, j);
        assert Fat(g, d)[c] == Fat(g, d0)[c];
        assert RawAt(g.kind, d, g.fatStart, g.fatSize, c) == RawAt(g.kind, d0, g.fatStart, g.fatSize, c);
      }
      hide RawIn;
      RawDetermines(g.kind, d[i], d0[i]);
    }
    forall i | g.fatStart + g.fatSize <= i < TablesEnd(g) ensures d[i] == d0[i] {
      assert d[i - g.fatSize] == d0[i - g.fatSize];
    }
  }

  /** The clusters of a chain are closed under following links. */
  lemma ChainClosed(v: Volume, q: seq<nat>)
    requires Fits(v.g, v.disk[..]) && ChainOn(v, q)
    ensures ClosedSet(v.g, Fat(v.g, v.disk[..]), set c | c in q)
  {
    var fat := Fat(v.g, v.disk[..]);
    forall c | c in q
      ensures 2 <= c < v.g.total + 2 && c < |fat|
      ensures (NextOf(v.g.kind, fat, c).Some? ==> NextOf(v.g.kind, fat, c).value in q)
    {
      var i :| 0 <= i < |q| && q[i] == c;
      ChainNext(v.g.kind, fat, q, i);
      hide NextOf;
    }
  }

  /** A file written into free clusters only has at most 32768 of them. */
  lemma FreshLength(v: Volume, job: Job, q: seq<nat>)
    requires Safe(v, job, q) && ChainOn(v, q) && job.p == []
    ensures |q| <= 32768
  {
    forall i | 0 <= i < |q| ensures 2 <= q[i] < MAX_SCAN + 2 {
    }
    DistinctBound(q, 2, MAX_SCAN + 2);
  }

  /** Freeing a chain that was written into free clusters. */
  method FreeFresh(v: Volume, start: nat, ghost q: seq<nat>, ghost job: Job, ghost d0: seq<Sector>)
    requires Safe(v, job, q) && ChainOn(v, q) && q != [] && q[0] == start && job.p == [] && job.mirrored
    requires Fits(v.g, d0) && Mirrored(v.g, d0) && job.fat0 == Fat(v.g, d0) && |d0| == v.disk.Length
    modifies v.disk
    ensures Fits(v.g, v.disk[..]) && SameTables(v.g, d0, v.disk[..])
  {
    ghost var d1 := v.disk[..];
    FreshLength(v, job, q);
    ChainClosed(v, q);
    RawBounds(v.g, d0);
    assert Bounded(v.g.kind, job.fat0);
    hide Fits, Fat, Clusters, Mirrored, Middle, IsChain, Owned, Walk, Exhausted, ClearedAt, ClosedSet, Carries,
         OnVolume, Untouched, Bounded, SameTables;
    ghost var s := set c | c in q;
    ghost var q' := FreeClusterChain(v, start, s);
    WalkIsChain(v.g.kind, Fat(v.g, d1), q, q');
    FreshRestored(v.g.kind, job.fat0, job.cl0, Fat(v.g, d1), Clusters(v.g, d1), Fat(v.g, v.disk[..]), q);
    TableBytes(v.g, d0, v.disk[..]);
  }

  /** fat_write_file for a new file, then fat_free_cluster_chain: every sector of the table is
      as before, reserved bits and second copy included. */
  method WriteThenFree(v: Volume, buf: seq<Byte>) returns (ok: bool)
    requires Fits(v.g, v.disk[..]) && Mirrored(v.g, v.disk[..])
    modifies v.disk
    ensures ok ==> Fits(v.g, v.disk[..]) && SameTables(v.g, old(v.disk[..]), v.disk[..])
  {
    ghost var d0 := v.disk[..];
    hide Fits, Fat, Clusters, Mirrored, Middle, IsChain, Owned, Carries, OnVolume, Untouched, Content, SameTables,
         FirstFree;
    var start;
    ghost var q, job;
    ok, start, q, job := WriteData(v, 0, buf, []);
    if ok {
      FreeFresh(v, start, q, job, d0);
    }
  }
}
