/**
  Cluster chains in a table of raw entries, and the file contents they carry.
 */
module FatChain {
  import opened Prelude
  import opened FatEntry

  /** An entry without its reserved bits. */
  function Value(kind: Kind, raw: nat): (v: nat)
    ensures v < Limit(kind)
  {
    raw % Limit(kind)
  }

  /** get_next_cluster: a free or reserved entry, one from the end marks on, and one that points to
      itself end the walk. The bad mark lies below the end marks and does not. */
  function NextOf(kind: Kind, fat: seq<nat>, c: nat): (r: Option<nat>)
    requires c < |fat|
    ensures r.Some? ==> 2 <= r.value < EndLimit(kind) && r.value != c
  {
    var n := Value(kind, fat[c]);
    if n < 2 || n >= EndLimit(kind) || n == c then None else Some(n)
  }

  /** A chain: distinct clusters, all in use, each leading to the next, the last to none. */
  ghost predicate IsChain(kind: Kind, fat: seq<nat>, p: seq<nat>) {
    && p != []
    && Distinct(p)
    && (forall i :: 0 <= i < |p| ==> 2 <= p[i] < |fat| && Value(kind, fat[p[i]]) != 0)
    && (forall i :: 0 <= i < |p| ==> NextOf(kind, fat, p[i]) == After(p, i))
  }

  /** No walk goes over more clusters than this. */
  const MAX_VISITED := 65536

  ghost function After(p: seq<nat>, i: nat): Option<nat> {
    if i + 1 < |p| then Some(p[i + 1]) else None
  }

  /** set_fat_entry on the table. */
  function Set(kind: Kind, fat: seq<nat>, c: nat, v: nat): (r: seq<nat>)
    requires c < |fat|
    ensures |r| == |fat|
  {
    fat[c := Patched(kind, fat[c], c, v)]
  }

  lemma SetValue(kind: Kind, fat: seq<nat>, c: nat, v: nat)
    requires c < |fat| && kind != Fat12
    requires v < Limit(kind)
    ensures Value(kind, Set(kind, fat, c, v)[c]) == v
    ensures forall d :: 0 <= d < |fat| && d != c ==> Set(kind, fat, c, v)[d] == fat[d]
  {
    if kind == Fat32 {
      DivMod(fat[c] / 0x1000_0000 * 0x1000_0000 + v, 0x1000_0000, fat[c] / 0x1000_0000, v);
    }
  }

  lemma SetKeeps(kind: Kind, fat: seq<nat>, c: nat, v: nat)
    requires c < |fat|
    ensures forall d :: 0 <= d < |fat| && d != c ==> Set(kind, fat, c, v)[d] == fat[d]
  {
  }

  /** The next cluster depends on the own entry only. */
  lemma NextSame(kind: Kind, fat: seq<nat>, fat': seq<nat>, c: nat)
    requires c < |fat| == |fat'| && fat'[c] == fat[c]
    ensures NextOf(kind, fat', c) == NextOf(kind, fat, c)
  {
    hide Value;
  }

  lemma MarkEnds(kind: Kind, fat: seq<nat>, c: nat)
    requires c < |fat| && kind != Fat12
    ensures var f := Set(kind, fat, c, EndMark(kind)); NextOf(kind, f, c) == None && Value(kind, f[c]) != 0
  {
    SetValue(kind, fat, c, EndMark(kind));
  }

  /** A chain none of whose entries changed. */
  lemma ChainKept(kind: Kind, fat: seq<nat>, fat': seq<nat>, p: seq<nat>)
    requires IsChain(kind, fat, p) && |fat'| == |fat|
    requires forall i :: 0 <= i < |p| ==> fat'[p[i]] == fat[p[i]]
    ensures IsChain(kind, fat', p)
  {
    forall i | 0 <= i < |p| ensures NextOf(kind, fat', p[i]) == After(p, i) {
      assert NextOf(kind, fat, p[i]) == After(p, i);
    }
  }

  /** Writing the end mark at position i cuts the chain there. */
  lemma ChainCut(kind: Kind, fat: seq<nat>, p: seq<nat>, i: nat)
    requires IsChain(kind, fat, p) && i < |p| && kind != Fat12
    ensures IsChain(kind, Set(kind, fat, p[i], EndMark(kind)), p[..i + 1])
  {
    hide Set, Value, EndMark, NextOf, Limit, EndLimit, After;
    var f := Set(kind, fat, p[i], EndMark(kind));
    var q := p[..i + 1];
    forall j | 0 <= j < |q| ensures NextOf(kind, f, q[j]) == After(q, j) && Value(kind, f[q[j]]) != 0 {
      CutAt(kind, fat, p, i, j);
    }
  }

  lemma ChainAt(kind: Kind, fat: seq<nat>, p: seq<nat>, i: nat)
    requires IsChain(kind, fat, p) && i < |p|
    ensures 2 <= p[i] < |fat| && Value(kind, fat[p[i]]) != 0 && NextOf(kind, fat, p[i]) == After(p, i)
    ensures forall j :: 0 <= j < i ==> p[j] != p[i]
  {
    hide Value, NextOf, After;
  }

  lemma CutAt(kind: Kind, fat: seq<nat>, p: seq<nat>, i: nat, j: nat)
    requires IsChain(kind, fat, p) && j <= i < |p| && kind != Fat12
    ensures var f := Set(kind, fat, p[i], EndMark(kind));
      NextOf(kind, f, p[j]) == After(p[..i + 1], j) && Value(kind, f[p[j]]) != 0
  {
    hide Set, Value, EndMark, NextOf, Limit, EndLimit, IsChain;
    ChainAt(kind, fat, p, i);
    ChainAt(kind, fat, p, j);
    if j < i {
      SetKeeps(kind, fat, p[i], EndMark(kind));
      NextSame(kind, fat, Set(kind, fat, p[i], EndMark(kind)), p[j]);
    } else {
      MarkEnds(kind, fat, p[i]);
    }
  }

  /** A free cluster, marked as end and linked behind the last, extends the chain. */
  ghost function Extended(kind: Kind, fat: seq<nat>, p: seq<nat>, n: nat): seq<nat>
    requires p != [] && n < |fat| && p[|p| - 1] < |fat|
  {
    Set(kind, Set(kind, fat, n, EndMark(kind)), p[|p| - 1], n)
  }

  lemma ChainExtend(kind: Kind, fat: seq<nat>, p: seq<nat>, n: nat)
    requires IsChain(kind, fat, p) && kind != Fat12 && |fat| <= Limit(kind)
    requires 2 <= n < |fat| && n < EndLimit(kind) && Value(kind, fat[n]) == 0
    ensures n !in p
    ensures IsChain(kind, Extended(kind, fat, p, n), p + [n])
  {
    var l := p[|p| - 1];
    var f1 := Set(kind, fat, n, EndMark(kind));
    var f := Set(kind, f1, l, n);
    var q := p + [n];
    assert n !in p;
    SetValue(kind, fat, n, EndMark(kind));
    SetValue(kind, f1, l, n);
    forall j | 0 <= j < |q| ensures NextOf(kind, f, q[j]) == After(q, j) && Value(kind, f[q[j]]) != 0 {
      if j + 1 < |p| {
        assert p[j] != l;
        assert NextOf(kind, fat, p[j]) == After(p, j);
      }
    }
  }

  // ----- Contents -----

  /** The bytes of the clusters of a path, one after the other. */
  ghost function Content(data: seq<seq<Byte>>, p: seq<nat>): seq<Byte>
    requires forall i :: 0 <= i < |p| ==> p[i] < |data|
  {
    if p == [] then [] else Content(data, p[..|p| - 1]) + data[p[|p| - 1]]
  }

  lemma {:induction false} ContentKept(data: seq<seq<Byte>>, data': seq<seq<Byte>>, p: seq<nat>)
    requires forall i :: 0 <= i < |p| ==> p[i] < |data| == |data'| && data'[p[i]] == data[p[i]]
    ensures Content(data', p) == Content(data, p)
  {
    if p != [] {
      var n := |p| - 1;
      forall i | 0 <= i < n ensures p[..n][i] < |data| == |data'| && data'[p[..n][i]] == data[p[..n][i]] {
        assert p[..n][i] == p[i];
      }
      ContentKept(data, data', p[..n]);
    }
  }

  /** Filling the cluster at position i of a chain appends to what the first i carry. */
  lemma ContentWrite(data: seq<seq<Byte>>, p: seq<nat>, i: nat, x: seq<Byte>)
    requires Distinct(p) && i < |p| && forall j :: 0 <= j < |p| ==> p[j] < |data|
    ensures Content(data[p[i] := x], p[..i + 1]) == Content(data, p[..i]) + x
  {
    var d := data[p[i] := x];
    assert p[..i + 1][..i] == p[..i];
    ContentKept(data, d, p[..i]);
  }

  lemma {:induction false} ContentLength(data: seq<seq<Byte>>, p: seq<nat>, size: nat)
    requires forall i :: 0 <= i < |p| ==> p[i] < |data| && |data[p[i]]| == size
    ensures |Content(data, p)| == |p| * size
  {
    if p != [] {
      var n := |p| - 1;
      ContentLength(data, p[..n], size);
      assert (n + 1) * size == n * size + size;
    }
  }
}
