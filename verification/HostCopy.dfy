/**
  The host tool that copies a file into an image: the table of any of the three widths is
  patched in a byte buffer, and a chain is built cluster by cluster.
 */
module HostCopy {
  import opened Prelude
  import opened Words
  import opened FatEntry
  import opened FatChain

  /** The width of the table follows from the number of clusters. */
  function KindFor(total: nat): Kind {
    if total < 4085 then Fat12 else if total < 65525 then Fat16 else Fat32
  }

  /** The most clusters a 28-bit table can tell from its marks. */
  const MAX_TOTAL: nat := 0x0FFF_FFF6

  /** No cluster number is mistaken for an end mark. */
  lemma KindSuffices(total: nat)
    requires total <= MAX_TOTAL
    ensures total + 2 <= EndLimit(KindFor(total))
    ensures KindFor(total) == Fat12 <==> total < 4085
    ensures KindFor(total) == Fat32 <==> total >= 65525
  {
  }

  ghost predicate Holds(kind: Kind, b: seq<Byte>, n: nat) {
    n > 0 && InTable(kind, b, n - 1)
  }

  lemma HoldsAll(kind: Kind, b: seq<Byte>, n: nat, c: nat)
    requires Holds(kind, b, n) && c < n
    ensures InTable(kind, b, c)
  {
  }

  /** The values of the first n entries. */
  ghost function Entries(kind: Kind, b: seq<Byte>, n: nat): (r: seq<nat>)
    requires Holds(kind, b, n)
    ensures |r| == n && forall c :: 0 <= c < n ==> r[c] < Limit(kind)
  {
    seq(n, c requires 0 <= c < n => EntryAt(kind, b, n, c))
  }

  ghost function EntryAt(kind: Kind, b: seq<Byte>, n: nat, c: nat): (v: nat)
    requires Holds(kind, b, n) && c < n
    ensures v < Limit(kind)
  {
    HoldsAll(kind, b, n, c);
    GetEntry(kind, b, c)
  }

  /** Setting an entry is an update of the table of values, at every width. */
  lemma EntriesSet(kind: Kind, b: seq<Byte>, n: nat, c: nat, v: nat)
    requires Holds(kind, b, n) && c < n && InTable(kind, b, c) && v < Limit(kind)
    ensures Holds(kind, SetEntry(kind, b, c, v), n)
    ensures Entries(kind, SetEntry(kind, b, c, v), n) == Entries(kind, b, n)[c := v]
  {
    var r := SetEntry(kind, b, c, v);
    assert Holds(kind, r, n);
    hide SetEntry, GetEntry, Holds;
    hide EntryAt;
    forall d | 0 <= d < n ensures EntryAt(kind, r, n, d) == if d == c then v else EntryAt(kind, b, n, d) {
      EntrySet(kind, b, n, c, v, d);
    }
  }

  lemma EntrySet(kind: Kind, b: seq<Byte>, n: nat, c: nat, v: nat, d: nat)
    requires Holds(kind, b, n) && c < n && d < n && InTable(kind, b, c) && v < Limit(kind)
    requires Holds(kind, SetEntry(kind, b, c, v), n)
    ensures EntryAt(kind, SetEntry(kind, b, c, v), n, d) == if d == c then v else EntryAt(kind, b, n, d)
  {
    hide SetEntry, GetEntry, Holds, Limit, InTable, Offset;
    HoldsAll(kind, b, n, d);
    HoldsAll(kind, SetEntry(kind, b, c, v), n, d);
    if d == c {
      SetGet(kind, b, c, v);
      SmallMod(v, Limit(kind));
    } else {
      SetOther(kind, b, c, v, d);
    }
  }

  lemma SmallMod(v: nat, m: nat)
    requires v < m
    ensures v % m == v
  {
    DivMod(v, m, 0, v);
  }

  // ----- The operations on the buffer -----

  method FatGetEntry(b: array<Byte>, kind: Kind, c: nat, ghost n: nat) returns (v: nat)
    requires Holds(kind, b[..], n) && c < n
    ensures v == Entries(kind, b[..], n)[c]
  {
    HoldsAll(kind, b[..], n, c);
    v := GetEntry(kind, b[..], c);
  }

  method Store16(b: array<Byte>, o: nat, w: nat)
    requires o + 2 <= b.Length
    modifies b
    ensures b[..] == Put16(old(b[..]), o, w)
  {
    b[o] := (w % 0x100) as Byte;
    b[o + 1] := (w / 0x100 % 0x100) as Byte;
  }

  method FatSetEntry(b: array<Byte>, kind: Kind, c: nat, v: nat, ghost n: nat)
    requires Holds(kind, b[..], n) && c < n && v < Limit(kind)
    modifies b
    ensures b[..] == (HoldsAll(kind, old(b[..]), n, c); SetEntry(kind, old(b[..]), c, v))
    ensures Holds(kind, b[..], n)
    ensures Entries(kind, b[..], n) == old(Entries(kind, b[..], n))[c := v]
  {
    ghost var b0 := b[..];
    HoldsAll(kind, b0, n, c);
    EntriesSet(kind, b0, n, c, v);
    hide Entries, Holds, Patched, Put16, Get16;
    var o := Offset(kind, c);
    if kind == Fat32 {
      var w := Patched(kind, Get32(b[..], o), c, v);
      Store16(b, o, w % 0x1_0000);
      Store16(b, o + 2, w / 0x1_0000);
    } else {
      var w := Patched(kind, Get16(b[..], o), c, v);
      Store16(b, o, w);
    }
  }

  /** The lowest free cluster, or zero. */
  method AllocateFreeCluster(b: array<Byte>, kind: Kind, total: nat) returns (r: nat)
    requires Holds(kind, b[..], total + 2)
    ensures var f := Entries(kind, b[..], total + 2);
      if r == 0 then FreeCount(f) == 0
      else 2 <= r < total + 2 && f[r] == 0 && forall c :: 2 <= c < r ==> f[c] != 0
  {
    ghost var f := Entries(kind, b[..], total + 2);
    hide Entries, Holds;
    var c := 2;
    while c < total + 2
      invariant 2 <= c <= total + 2
      invariant forall d :: 2 <= d < c ==> f[d] != 0
    {
      var v := FatGetEntry(b, kind, c, total + 2);
      if v == 0 {
        return c;
      }
      c := c + 1;
    }
    NoneFree(f);
    r := 0;
  }

  // ----- Free entries -----

  ghost function FreeCount(f: seq<nat>): nat {
    if |f| <= 2 then 0 else FreeCount(f[..|f| - 1]) + if f[|f| - 1] == 0 then 1 else 0
  }

  lemma {:induction false} NoneFree(f: seq<nat>)
    requires forall c :: 2 <= c < |f| ==> f[c] != 0
    ensures FreeCount(f) == 0
  {
    if |f| > 2 {
      NoneFree(f[..|f| - 1]);
    }
  }

  lemma {:induction false} FreeCountSet(f: seq<nat>, c: nat, v: nat)
    requires 2 <= c < |f|
    ensures FreeCount(f[c := v]) == FreeCount(f) - (if f[c] == 0 then 1 else 0) + (if v == 0 then 1 else 0)
  {
    var n := |f| - 1;
    if c == n {
      assert f[c := v][..n] == f[..n];
    } else {
      FreeCountSet(f[..n], c, v);
      assert f[c := v][..n] == f[..n][c := v];
    }
  }

  // ----- Chains of values -----

  /** The table with cluster n linked behind the chain p and marked as its end. */
  ghost function Linked(kind: Kind, f: seq<nat>, p: seq<nat>, n: nat): (r: seq<nat>)
    requires n < |f| && (p == [] || p[|p| - 1] < |f|)
    ensures |r| == |f|
  {
    (if p == [] then f else f[p[|p| - 1] := n])[n := EndMark(kind)]
  }

  /** The tool's chain: its last entry holds the end mark. */
  ghost predicate Built(kind: Kind, f: seq<nat>, p: seq<nat>) {
    && Distinct(p)
    && (forall i :: 0 <= i < |p| ==> 2 <= p[i] < |f|)
    && (forall i {:trigger LinkAt(kind, p, i)} :: 0 <= i < |p| ==> f[p[i]] == LinkAt(kind, p, i))
  }

  ghost function LinkAt(kind: Kind, p: seq<nat>, i: nat): nat {
    if i + 1 < |p| then p[i + 1] else EndMark(kind)
  }

  lemma BuiltIsChain(kind: Kind, f: seq<nat>, p: seq<nat>)
    requires Built(kind, f, p) && p != [] && |f| <= EndLimit(kind)
    ensures IsChain(kind, f, p)
  {
    hide Limit;
    forall i | 0 <= i < |p| ensures NextOf(kind, f, p[i]) == After(p, i) && Value(kind, f[p[i]]) != 0 {
      assert f[p[i]] == LinkAt(kind, p, i);
      assert i + 1 < |p| ==> 2 <= p[i + 1] < |f| && p[i + 1] != p[i];
      LinkNext(kind, f, p[i], After(p, i));
    }
  }

  lemma LinkNext(kind: Kind, f: seq<nat>, c: nat, next: Option<nat>)
    requires c < |f| <= EndLimit(kind)
    requires match next case Some(n) => f[c] == n && 2 <= n < |f| && n != c case None => f[c] == EndMark(kind)
    ensures NextOf(kind, f, c) == next && Value(kind, f[c]) != 0
  {
    PlainValue(kind, f[c]);
    hide Value;
  }

  /** An entry below the limit is its own value. */
  lemma PlainValue(kind: Kind, raw: nat)
    requires raw < Limit(kind)
    ensures Value(kind, raw) == raw
  {
    DivMod(raw, Limit(kind), 0, raw);
  }

  lemma LinkedBuilt(kind: Kind, f: seq<nat>, p: seq<nat>, n: nat)
    requires Built(kind, f, p) && 2 <= n < |f| && f[n] == 0
    ensures n !in p && Built(kind, Linked(kind, f, p, n), p + [n])
  {
    var q := p + [n];
    var f' := Linked(kind, f, p, n);
    assert n !in p by {
      forall i | 0 <= i < |p| ensures p[i] != n { assert f[p[i]] == LinkAt(kind, p, i) != 0; }
    }
    forall i | 0 <= i < |q| ensures f'[q[i]] == LinkAt(kind, q, i) {
      if i + 1 < |p| { assert f[p[i]] == LinkAt(kind, p, i); }
    }
  }

  // ----- free_cluster_chain -----

  /** The entries of the first i clusters of the chain are cleared. */
  ghost predicate ClearedTo(f0: seq<nat>, f: seq<nat>, p: seq<nat>, i: nat) {
    && i <= |p| && |f| == |f0|
    && (forall c :: 0 <= c < |f| ==> f[c] == if c in p[..i] then 0 else f0[c])
  }

  lemma ClearedNext(kind: Kind, f0: seq<nat>, f: seq<nat>, p: seq<nat>, i: nat)
    requires Built(kind, f0, p) && ClearedTo(f0, f, p, i) && i < |p|
    ensures 2 <= p[i] < |f| && f[p[i]] == LinkAt(kind, p, i)
    ensures ClearedTo(f0, f[p[i] := 0], p, i + 1)
    ensures i + 1 < |p| ==> 2 <= LinkAt(kind, p, i) < |f|
  {
    assert p[..i + 1] == p[..i] + [p[i]];
    assert p[i] !in p[..i];
  }

  /** At most 65536 clusters of the chain are cleared, from the front. */
  method FreeClusterChain(b: array<Byte>, kind: Kind, start: nat, ghost p: seq<nat>, ghost n: nat)
    requires Holds(kind, b[..], n) && n <= EndLimit(kind)
    requires Built(kind, Entries(kind, b[..], n), p) && p != [] && p[0] == start
    modifies b
    ensures Holds(kind, b[..], n)
    ensures ClearedTo(old(Entries(kind, b[..], n)), Entries(kind, b[..], n), p, Min(|p|, 65536))
  {
    ghost var f0 := Entries(kind, b[..], n);
    assert ClearedTo(f0, f0, p, 0) && 2 <= p[0] < n;
    hide Entries, Holds, Built, ClearedTo;
    var c := start;
    var visited := 0;
    while 2 <= c < EndLimit(kind) && visited < MAX_VISITED
      invariant visited <= Min(|p|, MAX_VISITED)
      invariant Holds(kind, b[..], n)
      invariant ClearedTo(f0, Entries(kind, b[..], n), p, visited)
      invariant if visited < |p| then c == p[visited] && 2 <= c < n else c == EndMark(kind)
      decreases MAX_VISITED - visited
    {
      ClearedNext(kind, f0, Entries(kind, b[..], n), p, visited);
      var next := FatGetEntry(b, kind, c, n);
      FatSetEntry(b, kind, c, 0, n);
      c := next;
      visited := visited + 1;
    }
  }

  // ----- The copying loop -----

  /** The first n bytes of the file, zero-filled behind its end. */
  function Padded(src: seq<Byte>, n: nat): (r: seq<Byte>)
    ensures |r| == n
  {
    src[..Min(|src|, n)] + Zeros(n - Min(|src|, n))
  }

  /** What the copy starts from. */
  datatype Copy = Copy(kind: Kind, size: nat, src: seq<Byte>, f0: seq<nat>, d0: seq<seq<Byte>>)

  /** After |p| clusters: p is a chain of clusters that were free, it carries the beginning
      of the file, and nothing else has changed. */
  ghost predicate Copied(k: Copy, f: seq<nat>, d: seq<seq<Byte>>, p: seq<nat>) {
    && Grown(k, f, d, p)
    && Content(d, p) == Padded(k.src, |p| * k.size)
  }

  ghost predicate Grown(k: Copy, f: seq<nat>, d: seq<seq<Byte>>, p: seq<nat>) {
    && |f| == |k.f0| == |d| == |k.d0|
    && Built(k.kind, f, p)
    && (forall i :: 0 <= i < |p| ==> p[i] < |f| && k.f0[p[i]] == 0)
    && (forall c :: 0 <= c < |f| && c !in p ==> f[c] == k.f0[c] && d[c] == k.d0[c])
    && FreeCount(f) + |p| == FreeCount(k.f0)
  }

  lemma GrowStep(k: Copy, f: seq<nat>, d: seq<seq<Byte>>, p: seq<nat>, n: nat, x: seq<Byte>)
    requires Grown(k, f, d, p) && 2 <= n < |f| && f[n] == 0
    ensures p != [] ==> p[|p| - 1] < |f|
    ensures Grown(k, Linked(k.kind, f, p, n), d[n := x], p + [n])
  {
    LinkedBuilt(k.kind, f, p, n);
    LinkedCount(k.kind, f, p, n);
    hide Built, FreeCount;
  }

  lemma CopyBegins(k: Copy)
    requires |k.f0| == |k.d0|
    ensures Copied(k, k.f0, k.d0, [])
  {
  }

  lemma LinkedCount(kind: Kind, f: seq<nat>, p: seq<nat>, n: nat)
    requires Built(kind, f, p) && 2 <= n < |f| && f[n] == 0 && (p != [] ==> p[|p| - 1] != n)
    ensures FreeCount(Linked(kind, f, p, n)) + 1 == FreeCount(f)
  {
    if p == [] {
      FreeCountSet(f, n, EndMark(kind));
    } else {
      var l := p[|p| - 1];
      assert f[l] == LinkAt(kind, p, |p| - 1) != 0 && 2 <= l < |f|;
      FreeCountSet(f, l, n);
      FreeCountSet(f[l := n], n, EndMark(kind));
    }
  }

  lemma PaddedNext(src: seq<Byte>, at: nat, size: nat)
    requires at < |src|
    ensures Padded(src, at) + Padded(src[at..], size) == Padded(src, at + size)
  {
  }

  /** One more cluster. */
  lemma CopyStep(k: Copy, f: seq<nat>, d: seq<seq<Byte>>, p: seq<nat>, n: nat)
    requires Copied(k, f, d, p) && 2 <= n < |f| && f[n] == 0 && |p| * k.size < |k.src|
    ensures p != [] ==> p[|p| - 1] < |f|
    ensures Copied(k, Linked(k.kind, f, p, n), d[n := Padded(k.src[|p| * k.size..], k.size)], p + [n])
  {
    var at := |p| * k.size;
    var x := Padded(k.src[at..], k.size);
    assert (|p| + 1) * k.size == at + k.size;
    PaddedNext(k.src, at, k.size);
    GrowStep(k, f, d, p, n, x);
    assert n !in p by { LinkedBuilt(k.kind, f, p, n); }
    StepContent(d, p, n, x);
    hide Padded, Content, Grown, Linked;
  }

  lemma StepContent(d: seq<seq<Byte>>, p: seq<nat>, n: nat, x: seq<Byte>)
    requires n < |d| && Distinct(p) && n !in p && forall i :: 0 <= i < |p| ==> p[i] < |d|
    ensures Content(d[n := x], p + [n]) == Content(d, p) + x
  {
    var q := p + [n];
    ContentWrite(d, q, |p|, x);
    assert q[..|p| + 1] == q && q[..|p|] == p;
  }

  /** Append one cluster to the chain: link it, mark it, fill it. */
  method CopyCluster(b: array<Byte>, data: array<seq<Byte>>, total: nat, src: seq<Byte>, size: nat, idx: nat, prev: nat,
                     ghost k: Copy, ghost p: seq<nat>)
    returns (c: nat)
    requires Holds(k.kind, b[..], total + 2) && k.kind == KindFor(total) && total <= MAX_TOTAL
    requires data.Length == total + 2
    requires Copied(k, Entries(k.kind, b[..], total + 2), data[..], p) && src == k.src && size == k.size
    requires idx == |p| && |p| * size < |src| && prev == (if p == [] then 0 else p[|p| - 1])
    modifies b, data
    ensures Holds(k.kind, b[..], total + 2)
    ensures c == 0 ==> Copied(k, Entries(k.kind, b[..], total + 2), data[..], p) && FreeCount(k.f0) == |p|
    ensures c != 0 ==> c >= 2 && Copied(k, Entries(k.kind, b[..], total + 2), data[..], p + [c])
  {
    ghost var f, d := Entries(k.kind, b[..], total + 2), data[..];
    var kind := KindFor(total);
    KindSuffices(total);
    assert p != [] ==> 2 <= p[|p| - 1] < |f|;
    assert FreeCount(f) + |p| == FreeCount(k.f0);
    hide Entries, Holds, Copied, FreeCount, Padded;
    c := AllocateFreeCluster(b, kind, total);
    if c == 0 {
      return;
    }
    if prev != 0 {
      FatSetEntry(b, kind, prev, c, total + 2);
    }
    FatSetEntry(b, kind, c, EndMark(kind), total + 2);
    CopyStep(k, f, d, p, c);
    data[c] := Padded(src[idx * size..], size);
    assert data[..] == d[c := Padded(src[idx * size..], size)];
    assert Entries(kind, b[..], total + 2) == Linked(kind, f, p, c);
  }

  /** The number of clusters the file needs. */
  function Needed(len: nat, size: nat): nat
    requires size > 0
  {
    if len > 0 then (len + size - 1) / size else 0
  }

  /** The last cluster is not empty and the file ends in it. */
  lemma NeededLaws(len: nat, size: nat)
    requires size > 0
    ensures len <= Needed(len, size) * size < len + size
  {
    assert Needed(len, size) * size == (len + size - 1) - (len + size - 1) % size || len == 0;
  }

  lemma NotPastEnd(len: nat, size: nat, i: nat)
    requires size > 0 && i < Needed(len, size)
    ensures i * size < len
  {
    NeededLaws(len, size);
    MulGrows(i, Needed(len, size), size);
  }

  lemma NothingCopied(k: Copy, f: seq<nat>, d: seq<seq<Byte>>)
    requires Copied(k, f, d, [])
    ensures f == k.f0
  {
  }

  lemma AllCleared(k: Copy, f: seq<nat>, d: seq<seq<Byte>>, p: seq<nat>, f': seq<nat>)
    requires Copied(k, f, d, p) && ClearedTo(f, f', p, |p|)
    ensures f' == k.f0
  {
    assert p[..|p|] == p;
    hide Content, FreeCount, Built;
  }

  /** Behind the limit the chain stays in the table. */
  lemma NotAllCleared(k: Copy, f: seq<nat>, d: seq<seq<Byte>>, p: seq<nat>, f': seq<nat>)
    requires Copied(k, f, d, p) && ClearedTo(f, f', p, MAX_VISITED) && |p| > MAX_VISITED
    ensures f' != k.f0
  {
    hide Content, FreeCount;
    var c := p[MAX_VISITED];
    assert f[c] == LinkAt(k.kind, p, MAX_VISITED) != 0;
    assert c !in p[..MAX_VISITED];
    assert f'[c] == f[c] && k.f0[c] == 0;
  }

  /** The disk is full: clear the chain again. */
  method Undo(b: array<Byte>, total: nat, first: nat, ghost k: Copy, ghost d: seq<seq<Byte>>, ghost p: seq<nat>)
    requires total <= MAX_TOTAL && k.kind == KindFor(total) && Holds(k.kind, b[..], total + 2)
    requires Copied(k, Entries(k.kind, b[..], total + 2), d, p) && p != [] && p[0] == first
    modifies b
    ensures Holds(k.kind, b[..], total + 2)
    ensures Entries(k.kind, b[..], total + 2) == k.f0 <==> |p| <= MAX_VISITED
  {
    ghost var f := Entries(k.kind, b[..], total + 2);
    KindSuffices(total);
    assert Built(k.kind, f, p);
    hide Entries, Holds, Copied, Built, ClearedTo, KindFor;
    FreeClusterChain(b, KindFor(total), first, p, total + 2);
    if |p| <= MAX_VISITED {
      AllCleared(k, f, d, p, Entries(k.kind, b[..], total + 2));
    } else {
      NotAllCleared(k, f, d, p, Entries(k.kind, b[..], total + 2));
    }
  }

  /** The last cluster is marked once more after the loop, to no effect. */
  method MarkAgain(b: array<Byte>, total: nat, prev: nat, ghost k: Copy, ghost d: seq<seq<Byte>>, ghost p: seq<nat>)
    requires k.kind == KindFor(total) && Holds(k.kind, b[..], total + 2)
    requires Copied(k, Entries(k.kind, b[..], total + 2), d, p) && p != [] && prev == p[|p| - 1]
    modifies b
    ensures Holds(k.kind, b[..], total + 2)
    ensures Entries(k.kind, b[..], total + 2) == old(Entries(k.kind, b[..], total + 2))
  {
    assert Entries(k.kind, b[..], total + 2)[prev] == LinkAt(k.kind, p, |p| - 1);
    FatSetEntry(b, KindFor(total), prev, EndMark(KindFor(total)), total + 2);
  }

  lemma EnoughFree(k: Copy, f: seq<nat>, d: seq<seq<Byte>>, p: seq<nat>)
    requires Copied(k, f, d, p)
    ensures |p| <= FreeCount(k.f0)
  {
  }

  /** The buffer and the data area in the middle of a copy. */
  ghost predicate Copying(b: array<Byte>, data: array<seq<Byte>>, total: nat, k: Copy, p: seq<nat>)
    reads b, data
  {
    && total <= MAX_TOTAL && k.kind == KindFor(total) && data.Length == total + 2
    && Holds(k.kind, b[..], total + 2)
    && Copied(k, Entries(k.kind, b[..], total + 2), data[..], p)
  }

  method CopyLoop(b: array<Byte>, data: array<seq<Byte>>, total: nat, src: seq<Byte>, size: nat, ghost k: Copy)
    returns (ok: bool, first: nat, prev: nat, ghost p: seq<nat>)
    requires Copying(b, data, total, k, []) && src == k.src && size == k.size && size > 0
    modifies b, data
    ensures Copying(b, data, total, k, p)
    ensures first == (if p == [] then 0 else p[0]) && prev == (if p == [] then 0 else p[|p| - 1])
    ensures p != [] ==> first >= 2 && prev >= 2
    ensures if ok then |p| == Needed(|src|, size) else FreeCount(k.f0) == |p| < Needed(|src|, size)
  {
    p := [];
    hide Holds, Entries, Copied, FreeCount, Needed, KindFor;
    ok, first, prev := true, 0, 0;
    var idx := 0;
    var needed := Needed(|src|, size);
    while idx < needed
      invariant Copying(b, data, total, k, p)
      invariant idx == |p| <= needed
      invariant prev == if p == [] then 0 else p[|p| - 1]
      invariant first == if p == [] then 0 else p[0]
      invariant p != [] ==> first >= 2 && prev >= 2
    {
      NotPastEnd(|src|, size, idx);
      var c := CopyCluster(b, data, total, src, size, idx, prev, k, p);
      if c == 0 {
        ok := false;
        return;
      }
      p := p + [c];
      if first == 0 { first := c; }
      prev := c;
      idx := idx + 1;
    }
  }

  /** The loop of main that copies the file: it succeeds exactly when enough clusters are free.
      Then the file is a chain of clusters that were free, which carries its bytes, and no other
      entry or cluster has changed; otherwise the entries are as before if and only if at most
      65536 clusters were free. */
  method CopyFile(b: array<Byte>, data: array<seq<Byte>>, total: nat, src: seq<Byte>, size: nat)
    returns (ok: bool, first: nat, ghost p: seq<nat>, ghost k: Copy)
    requires total <= MAX_TOTAL && size > 0 && data.Length == total + 2
    requires Holds(KindFor(total), b[..], total + 2)
    modifies b, data
    ensures k == old(Copy(KindFor(total), size, src, Entries(KindFor(total), b[..], total + 2), data[..]))
    ensures Holds(k.kind, b[..], total + 2)
    ensures ok == (Needed(|src|, size) <= FreeCount(k.f0))
    ensures ok ==>
      && Copied(k, Entries(k.kind, b[..], total + 2), data[..], p)
      && |p| == Needed(|src|, size) && first == (if p == [] then 0 else p[0])
    ensures !ok ==> (Entries(k.kind, b[..], total + 2) == k.f0 <==> FreeCount(k.f0) <= 65536)
  {
    var kind := KindFor(total);
    k := Copy(kind, size, src, Entries(kind, b[..], total + 2), data[..]);
    CopyBegins(k);
    hide Holds, Entries, Copied, FreeCount, Needed, KindFor;
    var prev;
    ok, first, prev, p := CopyLoop(b, data, total, src, size, k);
    EnoughFree(k, Entries(kind, b[..], total + 2), data[..], p);
    if ok {
      if prev != 0 {
        MarkAgain(b, total, prev, k, data[..], p);
      }
    } else if first == 0 {
      NothingCopied(k, Entries(kind, b[..], total + 2), data[..]);
    } else {
      Undo(b, total, first, k, data[..], p);
    }
  }

  /** The copy is readable as the file, with fewer than a cluster of zeros behind it. */
  lemma CopyReadable(k: Copy, f: seq<nat>, d: seq<seq<Byte>>, p: seq<nat>)
    requires Copied(k, f, d, p) && k.size > 0 && |p| == Needed(|k.src|, k.size) && |f| <= EndLimit(k.kind)
    ensures if k.src == [] then p == [] else IsChain(k.kind, f, p)
    ensures exists z: nat :: z < k.size && Content(d, p) == k.src + Zeros(z)
  {
    NeededLaws(|k.src|, k.size);
    if k.src != [] {
      assert p != [];
      BuiltIsChain(k.kind, f, p);
    }
    hide Content, IsChain, Copied, Needed;
    assert k.src[..|k.src|] == k.src;
    assert |p| * k.size - |k.src| < k.size;
  }

  /** Chains that were on the image before are still there and carry what they did. */
  lemma CopyKeepsOthers(k: Copy, f: seq<nat>, d: seq<seq<Byte>>, p: seq<nat>, r: seq<nat>)
    requires Copied(k, f, d, p) && IsChain(k.kind, k.f0, r)
    ensures IsChain(k.kind, f, r) && Content(d, r) == Content(k.d0, r)
  {
    hide Built, FreeCount, Padded, Content, NextOf, After, Distinct;
    forall i | 0 <= i < |r| ensures r[i] !in p {
      assert Value(k.kind, k.f0[r[i]]) != 0;
    }
    ChainKept(k.kind, k.f0, f, r);
    ContentKept(k.d0, d, r);
  }
}
