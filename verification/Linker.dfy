/**
  The linker from mapped sections to the loaded program: symbol resolution, relocation in
  place (chapter 4, "Relocation", of the System V ABI Intel386 supplement), and the file
  that the load segment is read from.
 */
module Linker {
  import opened Prelude
  import opened Words
  import opened LinkLayout

  // ----- Global symbols -----

  /** A definition of a global or weak symbol, in the order of the symbol tables. */
  datatype Def<V> = Def(name: string, strong: bool, value: V)

  /** The table after all definitions: a definition is entered if there is none yet or if it
      is not weak. */
  function Resolve(defs: seq<Def<nat>>): map<string, nat> {
    if defs == [] then map[]
    else
      var m := Resolve(defs[..|defs| - 1]);
      var d := defs[|defs| - 1];
      if d.name !in m || d.strong then m[d.name := d.value] else m
  }

  ghost predicate Defines<V>(defs: seq<Def<V>>, i: nat, name: string) { i < |defs| && defs[i].name == name }

  /** Definition i is the one that counts: the last strong one, or the first if all are weak. */
  ghost predicate Wins<V>(defs: seq<Def<V>>, i: nat, name: string) {
    && Defines(defs, i, name)
    && (if defs[i].strong then forall j: nat :: i < j && Defines(defs, j, name) ==> !defs[j].strong
        else forall j: nat :: Defines(defs, j, name) ==> !defs[j].strong && i <= j)
  }

  /** A name is in the table if and only if it is defined. */
  lemma {:induction false} ResolvedExactly(defs: seq<Def<nat>>, name: string)
    ensures name in Resolve(defs) <==> exists i :: Defines(defs, i, name)
  {
    if defs != [] {
      var n := |defs| - 1;
      ResolvedExactly(defs[..n], name);
      if defs[n].name == name { assert Defines(defs, n, name); }
      if i :| Defines(defs[..n], i, name) { assert Defines(defs, i, name); }
      if i: nat :| Defines(defs, i, name) && i < n { assert Defines(defs[..n], i, name); }
    }
  }

  /** It has the value of the definition that counts. */
  lemma {:induction false} WinnerCounts(defs: seq<Def<nat>>, name: string, i: nat)
    requires Wins(defs, i, name)
    ensures name in Resolve(defs) && Resolve(defs)[name] == defs[i].value
  {
    var n := |defs| - 1;
    var front := defs[..n];
    if i < n {
      forall j: nat | Defines(front, j, name) ensures Defines(defs, j, name) { }
      assert Defines(front, i, name);
      WinnerCounts(front, name, i);
      assert defs[n].name == name ==> Defines(defs, n, name);
    } else if !defs[n].strong {
      ResolvedExactly(front, name);
      forall j: nat | Defines(front, j, name) ensures Defines(defs, j, name) { }
    }
  }

  /** Some definition always counts. */
  lemma {:induction false} SomeWinner<V>(defs: seq<Def<V>>, name: string, i: nat) returns (w: nat)
    requires Defines(defs, i, name)
    ensures Wins(defs, w, name)
  {
    var n := |defs| - 1;
    var front := defs[..n];
    if defs[n].name == name && defs[n].strong {
      w := n;
    } else if exists j :: Defines(front, j, name) {
      var j :| Defines(front, j, name);
      w := SomeWinner(front, name, j);
      forall k: nat | Defines(defs, k, name) && k < n ensures Defines(front, k, name) { }
      assert defs[w] == front[w];
    } else {
      assert forall k: nat :: Defines(defs, k, name) && k < n ==> Defines(front, k, name);
      w := n;
    }
  }

  /** The loop over the symbol tables. */
  method CollectGlobals(defs: seq<Def<nat>>) returns (table: map<string, nat>)
    ensures table == Resolve(defs)
  {
    table := map[];
    for i := 0 to |defs|
      invariant table == Resolve(defs[..i])
    {
      assert defs[..i + 1][..i] == defs[..i];
      if defs[i].name !in table || defs[i].strong {
        table := table[defs[i].name := defs[i].value];
      }
    }
    assert defs[..|defs|] == defs;
  }

  // ----- Words of one, two or four bytes -----

  predicate IsWidth(w: nat) { w == 1 || w == 2 || w == 4 }

  function Modulus(w: nat): (m: nat)
    ensures m >= 1
  {
    if w == 1 then 0x100 else if w == 2 then 0x1_0000 else 0x1_0000_0000
  }

  function Get(c: seq<Byte>, o: nat, w: nat): (v: nat)
    requires IsWidth(w) && o + w <= |c|
    ensures v < Modulus(w)
  {
    if w == 1 then c[o] as nat else if w == 2 then Get16(c, o) else Get32(c, o)
  }

  function Put(c: seq<Byte>, o: nat, w: nat, v: nat): (r: seq<Byte>)
    requires IsWidth(w) && o + w <= |c| && v < Modulus(w)
    ensures |r| == |c|
  {
    if w == 1 then c[o := v as Byte] else if w == 2 then Put16(c, o, v) else Put32(c, o, v)
  }

  lemma PutGet(c: seq<Byte>, o: nat, w: nat, v: nat)
    requires IsWidth(w) && o + w <= |c| && v < Modulus(w)
    ensures Get(Put(c, o, w, v), o, w) == v
    ensures forall i :: 0 <= i < |c| && !(o <= i < o + w) ==> Put(c, o, w, v)[i] == c[i]
  {
    if w == 2 { Put16Get(c, o, v); } else if w == 4 { Put32Get(c, o, v); }
  }

  /** A word depends on its own bytes only. */
  lemma GetSame(c: seq<Byte>, d: seq<Byte>, o: nat, p: nat, w: nat)
    requires IsWidth(w) && o + w <= |c| && p + w <= |d| && c[o..o + w] == d[p..p + w]
    ensures Get(c, o, w) == Get(d, p, w)
  {
    var x, y := c[o..o + w], d[p..p + w];
    assert x[0] == c[o] && y[0] == d[p];
    assert w >= 2 ==> x[1] == c[o + 1] && y[1] == d[p + 1];
    assert w == 4 ==> x[2] == c[o + 2] && y[2] == d[p + 2] && x[3] == c[o + 3] && y[3] == d[p + 3];
  }

  // ----- Relocations -----

  /** A relocation of an input section: S is the value of its symbol. */
  datatype Rel = Rel(sec: nat, offset: nat, width: nat, pcrel: bool, S: nat)

  /** It lies inside its section, which has file contents. */
  ghost predicate RelOk(ins: seq<InSec>, r: Rel) {
    && r.sec < |ins| && IsWidth(r.width)
    && (Target(ins[r.sec]).Some? ==> r.offset + r.width <= |ins[r.sec].bytes| && Target(ins[r.sec]) != Some(BSS))
  }

  ghost predicate Apart(r: Rel, q: Rel) {
    r.sec != q.sec || r.offset + r.width <= q.offset || q.offset + q.width <= r.offset
  }

  ghost predicate RelsOk(ins: seq<InSec>, rels: seq<Rel>) {
    && (forall i :: 0 <= i < |rels| ==> RelOk(ins, rels[i]))
    && (forall i, j :: 0 <= i < j < |rels| ==> Apart(rels[i], rels[j]))
  }

  /** S + A, or S + A - P. */
  function Relocated(r: Rel, addend: nat, place: nat): (v: nat)
    ensures v < Modulus(r.width)
  {
    (r.S + addend - if r.pcrel then place else 0) % Modulus(r.width)
  }

  function Patch(c: seq<Byte>, o: nat, r: Rel, place: nat): (d: seq<Byte>)
    requires IsWidth(r.width) && o + r.width <= |c|
    ensures |d| == |c|
  {
    Put(c, o, r.width, Relocated(r, Get(c, o, r.width), place))
  }

  /** Where a relocation of a mapped section acts. */
  function SiteOf(ins: seq<InSec>, r: Rel, t: nat): nat
    requires r.sec < |ins|
  {
    OffsetOf(ins, r.sec, t) + r.offset
  }

  lemma SiteInside(ins: seq<InSec>, r: Rel, t: nat)
    requires RelOk(ins, r) && Target(ins[r.sec]) == Some(t)
    ensures SiteOf(ins, r, t) + r.width <= |Contents(ins, t)|
    ensures Contents(ins, t)[SiteOf(ins, r, t)..SiteOf(ins, r, t) + r.width]
         == ins[r.sec].bytes[r.offset..r.offset + r.width]
  {
    hide Contents, OffsetOf, Target, AlignOf, RelOk;
    RelFacts(ins, r, t);
    PlacedAt(ins, r.sec, t);
    var o := OffsetOf(ins, r.sec, t);
    var c := Contents(ins, t);
    SubSlice(c, o, |ins[r.sec].bytes|, r.offset, r.width);
  }

  lemma SubSlice(c: seq<Byte>, o: nat, n: nat, x: nat, w: nat)
    requires o + n <= |c| && x + w <= n
    ensures c[o + x..o + x + w] == c[o..o + n][x..x + w]
  {
    var a, b := c[o + x..o + x + w], c[o..o + n][x..x + w];
    forall i | 0 <= i < w ensures a[i] == b[i] {
      assert a[i] == c[o + x + i];
      assert b[i] == c[o..o + n][x + i];
    }
  }

  /** Sites that are apart in their sections are apart in the output section. */
  lemma SitesApart(ins: seq<InSec>, r: Rel, q: Rel, t: nat)
    requires RelOk(ins, r) && RelOk(ins, q) && Apart(r, q)
    requires Target(ins[r.sec]) == Some(t) && Target(ins[q.sec]) == Some(t)
    ensures SiteOf(ins, r, t) + r.width <= SiteOf(ins, q, t) || SiteOf(ins, q, t) + q.width <= SiteOf(ins, r, t)
  {
    hide OffsetOf, Contents, AlignOf;
    if r.sec < q.sec {
      PlacedApart(ins, r.sec, q.sec, t);
    } else if q.sec < r.sec {
      PlacedApart(ins, q.sec, r.sec, t);
    }
  }

  /** The output section t after the relocations, applied in their order. */
  ghost function Applied(ins: seq<InSec>, base: nat, rels: seq<Rel>, t: nat): (c: seq<Byte>)
    requires forall i :: 0 <= i < |rels| ==> RelOk(ins, rels[i])
    ensures |c| == |Contents(ins, t)|
  {
    if rels == [] then Contents(ins, t)
    else
      var c := Applied(ins, base, rels[..|rels| - 1], t);
      var r := rels[|rels| - 1];
      assert RelOk(ins, r);
      if Target(ins[r.sec]) == Some(t) then
        SiteInside(ins, r, t);
        Patch(c, SiteOf(ins, r, t), r, Vaddr(ins, base, t) + SiteOf(ins, r, t))
      else c
  }

  /** The relocation acts on byte x of output section t. */
  ghost predicate Hits(ins: seq<InSec>, r: Rel, t: nat, x: nat) {
    r.sec < |ins| && Target(ins[r.sec]) == Some(t) && SiteOf(ins, r, t) <= x < SiteOf(ins, r, t) + r.width
  }

  /** Bytes that no relocation acts on stay. */
  lemma {:induction false} AppliedElsewhere(ins: seq<InSec>, base: nat, rels: seq<Rel>, t: nat, x: nat)
    requires (forall i :: 0 <= i < |rels| ==> RelOk(ins, rels[i])) && x < |Contents(ins, t)|
    requires forall i :: 0 <= i < |rels| ==> !Hits(ins, rels[i], t, x)
    ensures Applied(ins, base, rels, t)[x] == Contents(ins, t)[x]
  {
    if rels != [] {
      var n := |rels| - 1;
      var r := rels[n];
      assert !Hits(ins, r, t, x);
      hide Contents, OffsetOf, Vaddr, Target, SiteOf, RelOk;
      AppliedElsewhere(ins, base, rels[..n], t, x);
      if Target(ins[r.sec]) == Some(t) {
        assert r.sec < |ins|;
        SiteInside(ins, r, t);
        var c := Applied(ins, base, rels[..n], t);
        var o := SiteOf(ins, r, t);
        PutGet(c, o, r.width, Relocated(r, Get(c, o, r.width), Vaddr(ins, base, t) + o));
      }
    }
  }

  /** The site of the last relocation still holds its original bytes before it is applied. */
  lemma FreshSite(ins: seq<InSec>, base: nat, rels: seq<Rel>, t: nat)
    requires RelsOk(ins, rels) && rels != [] && Target(ins[rels[|rels| - 1].sec]) == Some(t)
    ensures var r := rels[|rels| - 1]; var o := SiteOf(ins, r, t); var c := Applied(ins, base, rels[..|rels| - 1], t);
      o + r.width <= |c| && c[o..o + r.width] == ins[r.sec].bytes[r.offset..r.offset + r.width]
  {
    var n := |rels| - 1;
    var r := rels[n];
    assert RelOk(ins, r);
    SiteInside(ins, r, t);
    var o := SiteOf(ins, r, t);
    var c := Applied(ins, base, rels[..n], t);
    hide Applied, Contents, SiteOf, Target;
    forall x | o <= x < o + r.width ensures c[x] == Contents(ins, t)[x] {
      forall j | 0 <= j < n ensures !Hits(ins, rels[..n][j], t, x) {
        assert Apart(rels[j], rels[n]) && RelOk(ins, rels[j]);
        if Target(ins[rels[j].sec]) == Some(t) { SitesApart(ins, rels[j], r, t); }
      }
      AppliedElsewhere(ins, base, rels[..n], t, x);
    }
    assert c[o..o + r.width] == Contents(ins, t)[o..o + r.width];
  }

  /** The last relocation does not act on a site that is apart from its own. */
  lemma StepKeeps(ins: seq<InSec>, base: nat, rels: seq<Rel>, t: nat, r: Rel)
    requires RelsOk(ins, rels) && rels != [] && RelOk(ins, r) && Target(ins[r.sec]) == Some(t)
    requires Apart(r, rels[|rels| - 1])
    ensures var o := SiteOf(ins, r, t);
      && o + r.width <= |Contents(ins, t)|
      && Get(Applied(ins, base, rels, t), o, r.width) == Get(Applied(ins, base, rels[..|rels| - 1], t), o, r.width)
  {
    hide Applied, Contents, SiteOf, Put, Get, Vaddr, Target;
    var n := |rels| - 1;
    var q := rels[n];
    assert RelOk(ins, q);
    hide RelsOk, RelOk;
    SiteInside(ins, r, t);
    AppliedStep(ins, base, rels, t);
    if Target(ins[q.sec]) == Some(t) {
      var o, p := SiteOf(ins, r, t), SiteOf(ins, q, t);
      var c := Applied(ins, base, rels[..n], t);
      SitesApart(ins, r, q, t);
      PatchKeeps(c, p, q, Vaddr(ins, base, t) + p, o, r.width);
    }
  }

  lemma PatchKeeps(c: seq<Byte>, p: nat, q: Rel, place: nat, o: nat, w: nat)
    requires IsWidth(q.width) && IsWidth(w) && p + q.width <= |c| && o + w <= |c| && (o + w <= p || p + q.width <= o)
    ensures Get(Patch(c, p, q, place), o, w) == Get(c, o, w)
  {
    hide Put, Get, Relocated;
    PutGet(c, p, q.width, Relocated(q, Get(c, p, q.width), place));
    assert Patch(c, p, q, place)[o..o + w] == c[o..o + w];
    GetSame(Patch(c, p, q, place), c, o, o, w);
  }

  lemma PatchGives(c: seq<Byte>, o: nat, r: Rel, place: nat)
    requires IsWidth(r.width) && o + r.width <= |c|
    ensures Get(Patch(c, o, r, place), o, r.width) == Relocated(r, Get(c, o, r.width), place)
  {
    hide Put, Get, Relocated;
    PutGet(c, o, r.width, Relocated(r, Get(c, o, r.width), place));
  }

  lemma AppliedStep(ins: seq<InSec>, base: nat, rels: seq<Rel>, t: nat)
    requires rels != [] && forall i :: 0 <= i < |rels| ==> RelOk(ins, rels[i])
    ensures RelOk(ins, rels[|rels| - 1])
    ensures var r := rels[|rels| - 1]; var c := Applied(ins, base, rels[..|rels| - 1], t);
      if Target(ins[r.sec]) == Some(t)
      then
        var o := SiteOf(ins, r, t);
        o + r.width <= |c| && Applied(ins, base, rels, t) == Patch(c, o, r, Vaddr(ins, base, t) + o)
      else Applied(ins, base, rels, t) == c
  {
    hide Contents, SiteOf, Vaddr, Patch, Target, RelOk;
    var r := rels[|rels| - 1];
    RelSec(ins, r);
    if Target(ins[r.sec]) == Some(t) { SiteInside(ins, r, t); }
  }

  /** After all relocations each site holds the value computed from its original addend. */
  lemma {:induction false} AppliedAt(ins: seq<InSec>, base: nat, rels: seq<Rel>, t: nat, i: nat)
    requires RelsOk(ins, rels) && i < |rels| && Target(ins[rels[i].sec]) == Some(t)
    ensures var r := rels[i]; var o := SiteOf(ins, r, t);
      && o + r.width <= |Contents(ins, t)|
      && Get(Applied(ins, base, rels, t), o, r.width)
         == Relocated(r, Get(ins[r.sec].bytes, r.offset, r.width), Vaddr(ins, base, t) + o)
  {
    hide Applied, Contents, SiteOf, Put, Get, Vaddr, Target;
    var n := |rels| - 1;
    var r := rels[i];
    assert RelOk(ins, r);
    SiteInside(ins, r, t);
    var o := SiteOf(ins, r, t);
    if i == n {
      FreshSite(ins, base, rels, t);
      AppliedStep(ins, base, rels, t);
      var c := Applied(ins, base, rels[..n], t);
      PatchGives(c, o, r, Vaddr(ins, base, t) + o);
      GetSame(c, ins[r.sec].bytes, o, r.offset, r.width);
    } else {
      AppliedAt(ins, base, rels[..n], t, i);
      assert Apart(rels[i], rels[n]);
      StepKeeps(ins, base, rels, t, r);
    }
  }

  // ----- The loaded image -----

  function FileSize(ins: seq<InSec>, base: nat): (n: int) {
    Vaddr(ins, base, BSS - 1) + |Contents(ins, BSS - 1)| - base
  }

  function MemSize(ins: seq<InSec>, base: nat): (n: int) {
    Vaddr(ins, base, BSS) + |Contents(ins, BSS)| - base
  }

  /** Byte y of the segment belongs to output section t. */
  ghost predicate InSection(ins: seq<InSec>, base: nat, t: nat, y: nat) {
    Vaddr(ins, base, t) <= base + y < Vaddr(ins, base, t) + |Contents(ins, t)|
  }

  /** The file part of the load segment: the sections with contents at their addresses. */
  ghost predicate IsSegment(ins: seq<InSec>, base: nat, rels: seq<Rel>, img: seq<Byte>)
    requires forall i :: 0 <= i < |rels| ==> RelOk(ins, rels[i])
  {
    && |img| == FileSize(ins, base)
    && (forall y, t :: 0 <= y < |img| && 0 <= t < BSS && InSection(ins, base, t, y) ==>
          img[y] == Applied(ins, base, rels, t)[base + y - Vaddr(ins, base, t)])
    && (forall y :: 0 <= y < |img| && (forall t: nat :: t < BSS ==> !InSection(ins, base, t, y)) ==> img[y] == 0)
  }

  /** What a loader puts at address base + y: the file part, then zeros. */
  function Loaded(img: seq<Byte>, y: nat): Byte { if y < |img| then img[y] else 0 }

  /** Where input section k begins in the segment. */
  function PlaceOf(ins: seq<InSec>, base: nat, k: nat, t: nat): int
    requires k < |ins|
  {
    AddressOf(ins, base, k, t) - base
  }

  lemma SegmentByte(ins: seq<InSec>, base: nat, rels: seq<Rel>, img: seq<Byte>, t: nat, x: nat)
    requires (forall i :: 0 <= i < |rels| ==> RelOk(ins, rels[i])) && IsSegment(ins, base, rels, img)
    requires t < BSS && x < |Contents(ins, t)|
    ensures var y := Vaddr(ins, base, t) + x - base;
      0 <= y < |img| && img[y] == Applied(ins, base, rels, t)[x]
  {
    hide Contents, Vaddr, Applied, RelOk;
    VaddrOrder(ins, base, t, BSS);
    if t < BSS - 1 { VaddrOrder(ins, base, t, BSS - 1); }
    var y := Vaddr(ins, base, t) + x - base;
    assert InSection(ins, base, t, y);
  }

  /** The bytes of the .bss section are not in the file. */
  lemma BssBeyond(ins: seq<InSec>, base: nat, x: nat)
    ensures Vaddr(ins, base, BSS) + x - base >= FileSize(ins, base)
  {
    hide Contents, Vaddr;
    VaddrOrder(ins, base, BSS - 1, BSS);
  }

  /** A byte of an input section that no relocation acts on is loaded unchanged. */
  lemma LoadedByte(ins: seq<InSec>, base: nat, rels: seq<Rel>, img: seq<Byte>, k: nat, t: nat, j: nat)
    requires RelsOk(ins, rels) && IsSegment(ins, base, rels, img)
    requires Mapped(ins, k, t) && j < |ins[k].bytes| && (t == BSS ==> ins[k].bytes[j] == 0)
    requires forall i :: 0 <= i < |rels| && rels[i].sec == k ==> !(rels[i].offset <= j < rels[i].offset + rels[i].width)
    ensures PlaceOf(ins, base, k, t) + j >= 0 && Loaded(img, PlaceOf(ins, base, k, t) + j) == ins[k].bytes[j]
  {
    hide Contents, Vaddr, Applied, RelOk, Target, OffsetOf, IsSegment;
    PlacedAt(ins, k, t);
    var o := OffsetOf(ins, k, t);
    var x := o + j;
    if t == BSS {
      BssBeyond(ins, base, x);
      SegmentSize(ins, base, rels, img);
    } else {
      SegmentByte(ins, base, rels, img, t, x);
      forall i | 0 <= i < |rels| ensures !Hits(ins, rels[i], t, x) {
        NotHit(ins, rels[i], k, t, j);
      }
      AppliedElsewhere(ins, base, rels, t, x);
      assert Contents(ins, t)[x] == Contents(ins, t)[o..o + |ins[k].bytes|][j];
    }
  }

  lemma SegmentSize(ins: seq<InSec>, base: nat, rels: seq<Rel>, img: seq<Byte>)
    requires RelsOk(ins, rels) && IsSegment(ins, base, rels, img)
    ensures |img| == FileSize(ins, base)
    ensures FileSize(ins, base) <= MemSize(ins, base)
  {
    hide Contents, Vaddr, Applied, RelOk;
    VaddrOrder(ins, base, BSS - 1, BSS);
  }

  lemma NotHit(ins: seq<InSec>, r: Rel, k: nat, t: nat, j: nat)
    requires RelOk(ins, r) && Mapped(ins, k, t) && j < |ins[k].bytes|
    requires r.sec == k ==> !(r.offset <= j < r.offset + r.width)
    ensures !Hits(ins, r, t, OffsetOf(ins, k, t) + j)
  {
    if Target(ins[r.sec]) == Some(t) {
      hide Contents, OffsetOf, Target;
      if r.sec < k { PlacedApart(ins, r.sec, k, t); }
      if k < r.sec { PlacedApart(ins, k, r.sec, t); }
    }
  }

  /** A relocated word is loaded as S + A or S + A - P, with the addend of the input file and
      the address it is loaded at, whatever the order of the relocations. */
  lemma LoadedWord(ins: seq<InSec>, base: nat, rels: seq<Rel>, img: seq<Byte>, t: nat, i: nat)
    requires RelsOk(ins, rels) && IsSegment(ins, base, rels, img)
    requires i < |rels| && Target(ins[rels[i].sec]) == Some(t)
    ensures var r := rels[i]; var y := PlaceOf(ins, base, r.sec, t) + r.offset;
      && 0 <= y && y + r.width <= |img|
      && Get(img, y, r.width) == Relocated(r, Get(ins[r.sec].bytes, r.offset, r.width), base + y)
  {
    hide Contents, Vaddr, Applied, RelOk, Target, OffsetOf, IsSegment, Get, Relocated;
    var r := rels[i];
    RelFacts(ins, r, t);
    SiteInside(ins, r, t);
    AppliedAt(ins, base, rels, t, i);
    var o := SiteOf(ins, r, t);
    SegmentSlice(ins, base, rels, img, t, o, r.width);
    GetSame(img, Applied(ins, base, rels, t), Vaddr(ins, base, t) + o - base, o, r.width);
  }

  lemma RelFacts(ins: seq<InSec>, r: Rel, t: nat)
    requires RelOk(ins, r) && Target(ins[r.sec]) == Some(t)
    ensures r.sec < |ins| && IsWidth(r.width) && r.offset + r.width <= |ins[r.sec].bytes| && t < BSS
  {
  }

  lemma SegmentSlice(ins: seq<InSec>, base: nat, rels: seq<Rel>, img: seq<Byte>, t: nat, o: nat, w: nat)
    requires RelsOk(ins, rels) && IsSegment(ins, base, rels, img)
    requires t < BSS && w >= 1 && o + w <= |Contents(ins, t)|
    ensures var y := Vaddr(ins, base, t) + o - base;
      0 <= y && y + w <= |img| && img[y..y + w] == Applied(ins, base, rels, t)[o..o + w]
  {
    hide Contents, Vaddr, Applied, RelOk, IsSegment;
    var y := Vaddr(ins, base, t) + o - base;
    SegmentByte(ins, base, rels, img, t, o);
    SegmentByte(ins, base, rels, img, t, o + w - 1);
    forall z | y <= z < y + w ensures img[z] == Applied(ins, base, rels, t)[z - y + o] {
      SegmentByte(ins, base, rels, img, t, z - y + o);
    }
  }

  /** Everything else in the segment is zero. */
  lemma LoadedGap(ins: seq<InSec>, base: nat, rels: seq<Rel>, img: seq<Byte>, y: nat)
    requires RelsOk(ins, rels) && IsSegment(ins, base, rels, img)
    requires forall k: nat, t: nat :: Mapped(ins, k, t) ==>
      !(PlaceOf(ins, base, k, t) <= y < PlaceOf(ins, base, k, t) + |ins[k].bytes|)
    ensures Loaded(img, y) == 0
  {
    hide Contents, Vaddr, Applied, RelOk, Target, OffsetOf;
    if y < |img| {
      if t: nat :| t < BSS && InSection(ins, base, t, y) {
        var x := base + y - Vaddr(ins, base, t);
        forall k | 0 <= k < |ins| ensures !Covers(ins, k, t, x) {
          assert Mapped(ins, k, t) ==> !(PlaceOf(ins, base, k, t) <= y < PlaceOf(ins, base, k, t) + |ins[k].bytes|);
        }
        GapsAreZero(ins, t, x);
        forall i | 0 <= i < |rels| ensures !Hits(ins, rels[i], t, x) {
          assert RelOk(ins, rels[i]);
          if Hits(ins, rels[i], t, x) { InsideSection(ins, rels[i], t, x); }
        }
        AppliedElsewhere(ins, base, rels, t, x);
      }
    }
  }

  lemma InsideSection(ins: seq<InSec>, r: Rel, t: nat, x: nat)
    requires RelOk(ins, r) && Hits(ins, r, t, x)
    ensures Covers(ins, r.sec, t, x)
  {
    hide OffsetOf;
  }

  /** A call or jump whose field was assembled as -4 and relocated relative to its place: the
      processor adds the field to the address behind it and lands on the symbol. */
  lemma CallLandsOnSymbol(r: Rel, addend: nat, place: nat)
    requires r.width == 4 && r.pcrel && r.S < 0x1_0000_0000 && addend == 0xFFFF_FFFC
    ensures (place + 4 + Relocated(r, addend, place)) % 0x1_0000_0000 == r.S
  {
    var m := 0x1_0000_0000;
    var x := r.S + addend - place;
    var q := x / m;
    assert x == m * q + Relocated(r, addend, place);
    DivMod(place + 4 + Relocated(r, addend, place), m, 1 - q, r.S);
  }

  /** So it does in the loaded program. */
  lemma CallLoaded(ins: seq<InSec>, base: nat, rels: seq<Rel>, img: seq<Byte>, t: nat, i: nat)
    requires RelsOk(ins, rels) && IsSegment(ins, base, rels, img)
    requires i < |rels| && Target(ins[rels[i].sec]) == Some(t)
    requires var r := rels[i];
      r.width == 4 && r.pcrel && r.S < 0x1_0000_0000 && Get(ins[r.sec].bytes, r.offset, 4) == 0xFFFF_FFFC
    ensures var r := rels[i]; var y := PlaceOf(ins, base, r.sec, t) + r.offset;
      0 <= y && y + 4 <= |img| && (base + y + 4 + Get(img, y, 4)) % 0x1_0000_0000 == r.S
  {
    hide IsSegment, Get, Relocated, PlaceOf, RelOk;
    var r := rels[i];
    LoadedWord(ins, base, rels, img, t, i);
    RelSec(ins, r);
    var y := PlaceOf(ins, base, r.sec, t) + r.offset;
    CallLandsOnSymbol(r, 0xFFFF_FFFC, base + y);
  }

  // ----- The passes of the linker -----

  /** out_sec_append. */
  method AppendSection(secs: array<seq<Byte>>, t: nat, s: InSec)
    requires secs.Length == SECTIONS && t < SECTIONS
    modifies secs
    ensures secs[..] == old(secs[..])[t := Append(old(secs[t]), s)]
  {
    var aligned := AlignUp(|secs[t]|, AlignOf(s));
    AlignUpBounds(|secs[t]|, AlignOf(s));
    hide AlignUp;
    secs[t] := secs[t] + Zeros(aligned - |secs[t]|);
    secs[t] := secs[t] + s.bytes;
  }

  ghost predicate AllContents(ins: seq<InSec>, secs: seq<seq<Byte>>) {
    |secs| == SECTIONS && forall t :: 0 <= t < SECTIONS ==> secs[t] == Contents(ins, t)
  }

  /** The map from input sections to offsets; unused for sections that are dropped. */
  ghost predicate AllOffsets(ins: seq<InSec>, n: nat, map_: seq<nat>) {
    n <= |ins| && n <= |map_| && forall k: nat, t: nat :: k < n && Mapped(ins, k, t) ==> map_[k] == OffsetOf(ins, k, t)
  }

  lemma ContentsStep(ins: seq<InSec>, n: nat, secs: seq<seq<Byte>>)
    requires n < |ins| && AllContents(ins[..n], secs)
    ensures match Target(ins[n])
            case None => AllContents(ins[..n + 1], secs)
            case Some(t) =>
              && AllContents(ins[..n + 1], secs[t := Append(secs[t], ins[n])])
              && AlignUp(|secs[t]|, AlignOf(ins[n])) == OffsetOf(ins, n, t)
  {
    assert ins[..n + 1][..n] == ins[..n];
    hide Target, Append, AlignUp, AlignOf;
  }

  method CollectSections(ins: seq<InSec>) returns (secs: array<seq<Byte>>, offsets: array<nat>)
    ensures fresh(secs) && fresh(offsets) && offsets.Length == |ins|
    ensures AllContents(ins, secs[..]) && AllOffsets(ins, |ins|, offsets[..])
  {
    secs := new seq<Byte>[SECTIONS](_ => []);
    offsets := new nat[|ins|](_ => 0);
    assert AllContents(ins[..0], secs[..]) by { assert ins[..0] == []; }
    hide Contents, Target, Append, AlignUp, AlignOf, OffsetOf;
    var k := 0;
    while k < |ins|
      invariant 0 <= k <= |ins|
      invariant secs.Length == SECTIONS && AllContents(ins[..k], secs[..]) && AllOffsets(ins, k, offsets[..])
    {
      ContentsStep(ins, k, secs[..]);
      var target := Target(ins[k]);
      if target.Some? {
        var t := target.value;
        offsets[k] := AlignUp(|secs[t]|, AlignOf(ins[k]));
        AppendSection(secs, t, ins[k]);
      }
      k := k + 1;
    }
    assert ins[..|ins|] == ins;
  }

  lemma VaddrIs(ins: seq<InSec>, base: nat, t: nat)
    ensures Vaddr(ins, base, t)
         == AlignUp(if t == 0 then base else Vaddr(ins, base, t - 1) + |Contents(ins, t - 1)|, SectionAlign(t))
  {
    hide Contents, AlignUp;
  }

  lemma ContentsAt(ins: seq<InSec>, secs: seq<seq<Byte>>, t: nat)
    requires AllContents(ins, secs) && t < SECTIONS
    ensures |secs| == SECTIONS && secs[t] == Contents(ins, t)
  {
  }

  method LayoutSections(ins: seq<InSec>, secs: array<seq<Byte>>, base: nat) returns (vaddr: array<nat>)
    requires AllContents(ins, secs[..])
    ensures fresh(vaddr) && vaddr.Length == SECTIONS && forall t :: 0 <= t < SECTIONS ==>
      vaddr[t] == Vaddr(ins, base, t)
  {
    hide Contents, AlignUp, Vaddr, AllContents;
    vaddr := new nat[SECTIONS](_ => 0);
    var cur := base;
    var t := 0;
    while t < SECTIONS
      invariant 0 <= t <= SECTIONS
      invariant forall u :: 0 <= u < t ==> vaddr[u] == Vaddr(ins, base, u)
      invariant cur == if t == 0 then base else Vaddr(ins, base, t - 1) + |Contents(ins, t - 1)|
    {
      VaddrIs(ins, base, t);
      ContentsAt(ins, secs[..], t);
      cur := AlignUp(cur, SectionAlign(t));
      vaddr[t] := cur;
      cur := cur + |secs[t]|;
      t := t + 1;
    }
  }

  ghost predicate AllApplied(ins: seq<InSec>, base: nat, rels: seq<Rel>, secs: seq<seq<Byte>>)
    requires forall i :: 0 <= i < |rels| ==> RelOk(ins, rels[i])
  {
    |secs| == SECTIONS && forall t :: 0 <= t < SECTIONS ==> secs[t] == Applied(ins, base, rels, t)
  }

  lemma ApplyStep(ins: seq<InSec>, base: nat, rels: seq<Rel>, n: nat, secs: seq<seq<Byte>>)
    requires n < |rels| && (forall i :: 0 <= i < |rels| ==> RelOk(ins, rels[i]))
    requires AllApplied(ins, base, rels[..n], secs)
    ensures var r := rels[n]; RelOk(ins, r) && match Target(ins[r.sec])
            case None => AllApplied(ins, base, rels[..n + 1], secs)
            case Some(t) =>
              var o := SiteOf(ins, r, t);
              && o + r.width <= |secs[t]|
              && AllApplied(ins, base, rels[..n + 1], secs[t := Patch(secs[t], o, r, Vaddr(ins, base, t) + o)])
  {
    hide RelOk, Target, Applied, Vaddr, Patch, SiteOf, Contents;
    var r := rels[n];
    var front := rels[..n + 1];
    assert front[..n] == rels[..n] && front[n] == r;
    RelSec(ins, r);
    forall t: nat | t < SECTIONS
      ensures Target(ins[r.sec]) == Some(t) ==>
        var o := SiteOf(ins, r, t);
        o + r.width <= |secs[t]| && Applied(ins, base, front, t) == Patch(secs[t], o, r, Vaddr(ins, base, t) + o)
      ensures Target(ins[r.sec]) != Some(t) ==> Applied(ins, base, front, t) == secs[t]
    {
      AppliedIs(ins, base, rels[..n], secs, t);
      AppliedStep(ins, base, front, t);
    }
  }

  lemma NothingApplied(ins: seq<InSec>, base: nat, rels: seq<Rel>, secs: seq<seq<Byte>>)
    requires AllContents(ins, secs)
    ensures AllApplied(ins, base, rels[..0], secs)
  {
  }

  /** The relocation loop: each site is read, computed and written back in place. */
  method ApplyRelocations(ins: seq<InSec>, secs: array<seq<Byte>>, offsets: array<nat>,
                          vaddr: array<nat>, base: nat, rels: seq<Rel>)
    requires AllContents(ins, secs[..]) && AllOffsets(ins, |ins|, offsets[..])
    requires vaddr.Length == SECTIONS && forall t :: 0 <= t < SECTIONS ==> vaddr[t] == Vaddr(ins, base, t)
    requires forall i :: 0 <= i < |rels| ==> RelOk(ins, rels[i])
    modifies secs
    ensures AllApplied(ins, base, rels, secs[..])
  {
    hide Contents, AllContents, Target, OffsetOf, Vaddr, Applied, RelOk, AllApplied, Get, Put, Relocated;
    NothingApplied(ins, base, rels, secs[..]);
    var i := 0;
    while i < |rels|
      invariant 0 <= i <= |rels| && secs.Length == SECTIONS && AllApplied(ins, base, rels[..i], secs[..])
    {
      var r := rels[i];
      ApplyStep(ins, base, rels, i, secs[..]);
      RelSec(ins, r);
      var target := Target(ins[r.sec]);
      if target.Some? {
        var t := target.value;
        assert Mapped(ins, r.sec, t);
        var loc := offsets[r.sec] + r.offset;
        assert offsets[..][r.sec] == OffsetOf(ins, r.sec, t);
        var P := vaddr[t] + loc;
        var A := Get(secs[t], loc, r.width);
        secs[t] := Put(secs[t], loc, r.width, Relocated(r, A, P));
      }
      i := i + 1;
    }
    assert rels[..|rels|] == rels;
  }

  lemma RelSec(ins: seq<InSec>, r: Rel)
    requires RelOk(ins, r)
    ensures r.sec < |ins| && IsWidth(r.width)
  {
  }

  /** The sections before u are in the image, the rest of it is zero. */
  ghost predicate Drawn(ins: seq<InSec>, base: nat, rels: seq<Rel>, u: nat, img: seq<Byte>)
    requires forall i :: 0 <= i < |rels| ==> RelOk(ins, rels[i])
  {
    && (forall y, t :: 0 <= y < |img| && 0 <= t < u && InSection(ins, base, t, y) ==>
          img[y] == Applied(ins, base, rels, t)[base + y - Vaddr(ins, base, t)])
    && (forall y :: 0 <= y < |img| && (forall t: nat :: t < u ==> !InSection(ins, base, t, y)) ==> img[y] == 0)
  }

  ghost predicate Blitted(img0: seq<Byte>, img: seq<Byte>, at: nat, c: seq<Byte>) {
    && |img| == |img0| && at + |c| <= |img|
    && (forall y :: 0 <= y < |img| ==> img[y] == if at <= y < at + |c| then c[y - at] else img0[y])
  }

  lemma DrawMore(ins: seq<InSec>, base: nat, rels: seq<Rel>, u: nat, img0: seq<Byte>, img: seq<Byte>)
    requires forall i :: 0 <= i < |rels| ==> RelOk(ins, rels[i])
    requires base <= Vaddr(ins, base, u)
    requires Drawn(ins, base, rels, u, img0)
    requires Blitted(img0, img, Vaddr(ins, base, u) - base, Applied(ins, base, rels, u))
    ensures Drawn(ins, base, rels, u + 1, img)
  {
    hide Contents, Vaddr, Applied, RelOk;
    forall y, t | 0 <= y < |img| && 0 <= t < u + 1 && InSection(ins, base, t, y)
      ensures img[y] == Applied(ins, base, rels, t)[base + y - Vaddr(ins, base, t)]
    {
      if t < u { VaddrOrder(ins, base, t, u); }
    }
    forall y | 0 <= y < |img| && (forall t: nat :: t < u + 1 ==> !InSection(ins, base, t, y)) ensures img[y] == 0 {
      assert !InSection(ins, base, u, y);
    }
  }

  /** One section is written at its place in the file. */
  method WriteSection(img: array<Byte>, at: nat, c: seq<Byte>)
    requires at + |c| <= img.Length
    modifies img
    ensures Blitted(old(img[..]), img[..], at, c)
  {
    var j := 0;
    while j < |c|
      invariant 0 <= j <= |c|
      invariant forall y :: 0 <= y < img.Length ==> img[y] == if at <= y < at + j then c[y - at] else old(img[y])
    {
      img[at + j] := c[j];
      j := j + 1;
    }
  }

  lemma SegmentFits(ins: seq<InSec>, base: nat, t: nat)
    requires t < BSS
    ensures base <= Vaddr(ins, base, t) && 0 <= FileSize(ins, base)
    ensures Vaddr(ins, base, t) - base + |Contents(ins, t)| <= FileSize(ins, base)
  {
    hide Contents, Vaddr;
    VaddrOrder(ins, base, t, BSS);
    if t < BSS - 1 { VaddrOrder(ins, base, t, BSS - 1); }
    VaddrOrder(ins, base, BSS - 1, BSS);
  }

  /** The file part of the segment: sections with contents are written at their offsets, the
      gaps read as zeros. */
  method BuildSegment(ins: seq<InSec>, secs: array<seq<Byte>>, vaddr: array<nat>, base: nat, ghost rels: seq<Rel>)
    returns (img: array<Byte>)
    requires forall i :: 0 <= i < |rels| ==> RelOk(ins, rels[i])
    requires AllApplied(ins, base, rels, secs[..])
    requires vaddr.Length == SECTIONS && forall t :: 0 <= t < SECTIONS ==> vaddr[t] == Vaddr(ins, base, t)
    ensures fresh(img) && IsSegment(ins, base, rels, img[..])
  {
    hide Contents, Vaddr, Applied, RelOk, Drawn, Blitted, AllApplied;
    SegmentFits(ins, base, BSS - 1);
    AppliedIs(ins, base, rels, secs[..], BSS - 1);
    var filesz := vaddr[BSS - 1] + |secs[BSS - 1]| - base;
    img := new Byte[filesz](_ => 0);
    BlankDrawn(ins, base, rels, img[..]);
    var t := 0;
    while t < BSS
      invariant 0 <= t <= BSS && fresh(img) && img.Length == FileSize(ins, base)
      invariant Drawn(ins, base, rels, t, img[..])
    {
      SegmentFits(ins, base, t);
      AppliedIs(ins, base, rels, secs[..], t);
      ghost var img0 := img[..];
      WriteSection(img, vaddr[t] - base, secs[t]);
      DrawMore(ins, base, rels, t, img0, img[..]);
      t := t + 1;
    }
    DrawnAll(ins, base, rels, img[..]);
  }

  lemma AppliedIs(ins: seq<InSec>, base: nat, rels: seq<Rel>, secs: seq<seq<Byte>>, t: nat)
    requires (forall i :: 0 <= i < |rels| ==> RelOk(ins, rels[i])) && AllApplied(ins, base, rels, secs) && t < SECTIONS
    ensures |secs| == SECTIONS && secs[t] == Applied(ins, base, rels, t) && |secs[t]| == |Contents(ins, t)|
  {
    hide Contents, RelOk;
  }

  lemma BlankDrawn(ins: seq<InSec>, base: nat, rels: seq<Rel>, img: seq<Byte>)
    requires (forall i :: 0 <= i < |rels| ==> RelOk(ins, rels[i])) && forall y :: 0 <= y < |img| ==> img[y] == 0
    ensures Drawn(ins, base, rels, 0, img)
  {
  }

  lemma DrawnAll(ins: seq<InSec>, base: nat, rels: seq<Rel>, img: seq<Byte>)
    requires (forall i :: 0 <= i < |rels| ==> RelOk(ins, rels[i])) && Drawn(ins, base, rels, BSS, img)
    requires |img| == FileSize(ins, base)
    ensures IsSegment(ins, base, rels, img)
  {
    hide Contents, Vaddr, Applied, RelOk, InSection;
  }

  // ----- From symbols to addresses -----

  /** Where a symbol table entry points. */
  datatype Symbol = Placed(sec: nat, value: nat) | Absolute(value: nat)

  /** What a relocation refers to: an entry of its own file, or a name. */
  datatype Ref = Local(symbol: Symbol) | Named(name: string)

  type Definition = Def<Symbol>

  datatype Entry = Entry(sec: nat, offset: nat, width: nat, pcrel: bool, ref: Ref)

  /** A symbol of a section that is not in the output keeps its bare value. */
  function SymbolAddress(ins: seq<InSec>, base: nat, s: Symbol): nat
    requires s.Placed? ==> s.sec < |ins|
  {
    match s
    case Absolute(v) => v
    case Placed(k, v) =>
      var t := Target(ins[k]);
      if t.Some? then AddressOf(ins, base, k, t.value) + v else v
  }

  ghost predicate SymbolOk(ins: seq<InSec>, s: Symbol) { s.Placed? ==> s.sec < |ins| }

  ghost predicate DefinitionsOk(ins: seq<InSec>, ds: seq<Definition>) {
    forall i :: 0 <= i < |ds| ==> SymbolOk(ins, ds[i].value)
  }

  function Addressed(ins: seq<InSec>, base: nat, ds: seq<Definition>): (r: seq<Def<nat>>)
    requires forall i :: 0 <= i < |ds| ==> SymbolOk(ins, ds[i].value)
    ensures |r| == |ds|
  {
    seq(|ds|, i requires 0 <= i < |ds| => (assert SymbolOk(ins, ds[i].value);
      Def(ds[i].name, ds[i].strong, SymbolAddress(ins, base, ds[i].value))))
  }

  /** A name without a definition stands for zero. */
  function RefValue(ins: seq<InSec>, base: nat, table: map<string, nat>, ref: Ref): nat
    requires ref.Local? ==> SymbolOk(ins, ref.symbol)
  {
    match ref
    case Local(s) => SymbolAddress(ins, base, s)
    case Named(n) => if n in table then table[n] else 0
  }

  function RelOf(ins: seq<InSec>, base: nat, table: map<string, nat>, e: Entry): Rel
    requires e.ref.Local? ==> SymbolOk(ins, e.ref.symbol)
  {
    Rel(e.sec, e.offset, e.width, e.pcrel, RefValue(ins, base, table, e.ref))
  }

  /** The reference means this symbol: its own, or the definition that counts. */
  ghost predicate Means(ds: seq<Definition>, ref: Ref, s: Symbol) {
    match ref
    case Local(x) => x == s
    case Named(n) => exists i: nat :: Wins(ds, i, n) && ds[i].value == s
  }

  lemma MeaningAddress(ins: seq<InSec>, base: nat, ds: seq<Definition>, ref: Ref, s: Symbol)
    requires DefinitionsOk(ins, ds) && SymbolOk(ins, s)
    requires (ref.Local? ==> SymbolOk(ins, ref.symbol)) && Means(ds, ref, s)
    ensures RefValue(ins, base, Resolve(Addressed(ins, base, ds)), ref) == SymbolAddress(ins, base, s)
  {
    hide SymbolAddress, Resolve;
    if ref.Named? {
      var defs := Addressed(ins, base, ds);
      var i: nat :| Wins(ds, i, ref.name) && ds[i].value == s;
      forall j: nat ensures Defines(defs, j, ref.name) <==> Defines(ds, j, ref.name) { }
      assert Wins(defs, i, ref.name);
      WinnerCounts(defs, ref.name, i);
    }
  }

  /** A pointer in the loaded program: a word that was assembled for a symbol of an input section
      holds the address at which that section's byte is loaded, plus the assembled addend. */
  lemma PointerLoaded(ins: seq<InSec>, base: nat, ds: seq<Definition>, rels: seq<Rel>, img: seq<Byte>,
                      i: nat, t: nat, e: Entry, k: nat, u: nat, v: nat)
    requires RelsOk(ins, rels) && IsSegment(ins, base, rels, img) && DefinitionsOk(ins, ds) && i < |rels|
    requires e.ref.Local? ==> SymbolOk(ins, e.ref.symbol)
    requires rels[i] == RelOf(ins, base, Resolve(Addressed(ins, base, ds)), e)
    requires e.width == 4 && !e.pcrel && Target(ins[e.sec]) == Some(t)
    requires Means(ds, e.ref, Placed(k, v)) && Mapped(ins, k, u)
    ensures var y := PlaceOf(ins, base, e.sec, t) + e.offset;
      && 0 <= y && y + 4 <= |img|
      && e.offset + 4 <= |ins[e.sec].bytes|
      && Get(img, y, 4)
         == (base + PlaceOf(ins, base, k, u) + v + Get(ins[e.sec].bytes, e.offset, 4)) % 0x1_0000_0000
  {
    hide IsSegment, Get, AddressOf, Resolve, Addressed, Means, RelOk;
    RelFacts(ins, rels[i], t);
    LoadedWord(ins, base, rels, img, t, i);
    MeaningAddress(ins, base, ds, e.ref, Placed(k, v));
  }

  // ----- The end of the kernel -----

  const KERNEL_END := "_kernel_end"
  const START := "_start"

  /** The first page boundary behind the program. */
  function KernelEnd(ins: seq<InSec>, base: nat): nat {
    AlignUp(Vaddr(ins, base, BSS) + |Contents(ins, BSS)|, 4096)
  }

  /** Every input section lies below it, less than a page: memory from there on is free. */
  lemma BelowKernelEnd(ins: seq<InSec>, base: nat, k: nat, t: nat)
    requires Mapped(ins, k, t)
    ensures AddressOf(ins, base, k, t) + |ins[k].bytes| <= KernelEnd(ins, base)
    ensures KernelEnd(ins, base) % 4096 == 0
    ensures KernelEnd(ins, base) < Vaddr(ins, base, BSS) + |Contents(ins, BSS)| + 4096
  {
    PlacedAt(ins, k, t);
    FourAndPage();
    hide IsPow2;
    AlignUpBounds(Vaddr(ins, base, BSS) + |Contents(ins, BSS)|, 4096);
    assert t <= BSS;
    hide Contents, Vaddr, OffsetOf, Target, AlignUp, AlignOf;
    if t < BSS { VaddrOrder(ins, base, t, BSS); }
  }

  /** The linker's own definition comes last and overrides any other. */
  function WithEnd(ins: seq<InSec>, base: nat, ds: seq<Definition>): seq<Definition> {
    ds + [Def(KERNEL_END, true, Absolute(KernelEnd(ins, base)))]
  }

  lemma EndCounts(ins: seq<InSec>, base: nat, ds: seq<Definition>)
    ensures Wins(WithEnd(ins, base, ds), |ds|, KERNEL_END)
  {
  }

  /** The other names keep the definition that counts. */
  lemma OthersCount(ins: seq<InSec>, base: nat, ds: seq<Definition>, i: nat, name: string)
    requires name != KERNEL_END
    ensures Wins(WithEnd(ins, base, ds), i, name) <==> Wins(ds, i, name)
  {
    var full := WithEnd(ins, base, ds);
    forall j: nat ensures Defines(full, j, name) <==> Defines(ds, j, name) {
      if j < |ds| { assert full[j] == ds[j]; }
    }
  }

  // ----- All passes -----

  method SymbolValue(ins: seq<InSec>, offsets: array<nat>, vaddr: array<nat>, base: nat, s: Symbol) returns (v: nat)
    requires AllOffsets(ins, |ins|, offsets[..]) && SymbolOk(ins, s)
    requires vaddr.Length == SECTIONS && forall t :: 0 <= t < SECTIONS ==> vaddr[t] == Vaddr(ins, base, t)
    ensures v == SymbolAddress(ins, base, s)
  {
    hide Vaddr, OffsetOf;
    if s.Absolute? {
      return s.value;
    }
    var target := Target(ins[s.sec]);
    if target.Some? {
      assert Mapped(ins, s.sec, target.value);
      assert offsets[..][s.sec] == OffsetOf(ins, s.sec, target.value);
      v := vaddr[target.value] + offsets[s.sec] + s.value;
    } else {
      v := s.value;
    }
  }

  /** The values of the definitions, in their order. */
  method AddressDefinitions(ins: seq<InSec>, offsets: array<nat>, vaddr: array<nat>, base: nat, ds: seq<Definition>)
    returns (defs: seq<Def<nat>>)
    requires AllOffsets(ins, |ins|, offsets[..]) && DefinitionsOk(ins, ds)
    requires vaddr.Length == SECTIONS && forall t :: 0 <= t < SECTIONS ==> vaddr[t] == Vaddr(ins, base, t)
    ensures defs == Addressed(ins, base, ds)
  {
    hide Vaddr, SymbolAddress, AllOffsets;
    defs := [];
    for i := 0 to |ds|
      invariant |defs| == i && forall j :: 0 <= j < i ==> defs[j] == Addressed(ins, base, ds)[j]
    {
      assert SymbolOk(ins, ds[i].value);
      var v := SymbolValue(ins, offsets, vaddr, base, ds[i].value);
      defs := defs + [Def(ds[i].name, ds[i].strong, v)];
    }
  }

  ghost predicate EntriesOk(ins: seq<InSec>, es: seq<Entry>) {
    forall i :: 0 <= i < |es| ==> es[i].ref.Local? ==> SymbolOk(ins, es[i].ref.symbol)
  }

  ghost predicate AllRels(ins: seq<InSec>, base: nat, table: map<string, nat>, es: seq<Entry>, n: nat, rels: seq<Rel>)
    requires EntriesOk(ins, es)
  {
    n <= |es| && |rels| == n && forall i :: 0 <= i < n ==> rels[i] == RelOf(ins, base, table, es[i])
  }

  method ResolveEntries(ins: seq<InSec>, offsets: array<nat>, vaddr: array<nat>,
                        base: nat, table: map<string, nat>, es: seq<Entry>)
    returns (rels: seq<Rel>)
    requires AllOffsets(ins, |ins|, offsets[..]) && EntriesOk(ins, es)
    requires vaddr.Length == SECTIONS && forall t :: 0 <= t < SECTIONS ==> vaddr[t] == Vaddr(ins, base, t)
    ensures AllRels(ins, base, table, es, |es|, rels)
  {
    hide Vaddr, SymbolAddress, AllOffsets;
    rels := [];
    for i := 0 to |es|
      invariant AllRels(ins, base, table, es, i, rels)
    {
      var e := es[i];
      var S := 0;
      match e.ref {
        case Local(s) => S := SymbolValue(ins, offsets, vaddr, base, s);
        case Named(n) => S := if n in table then table[n] else 0;
      }
      rels := rels + [Rel(e.sec, e.offset, e.width, e.pcrel, S)];
    }
  }

  /** The sites of the entries lie inside their sections and apart from each other. */
  ghost predicate SitesOk(ins: seq<InSec>, es: seq<Entry>) {
    && (forall i :: 0 <= i < |es| ==> RelOk(ins, SiteRel(es[i])))
    && (forall i, j :: 0 <= i < j < |es| ==> Apart(SiteRel(es[i]), SiteRel(es[j])))
  }

  ghost function SiteRel(e: Entry): Rel { Rel(e.sec, e.offset, e.width, e.pcrel, 0) }

  lemma ResolvedRelsOk(ins: seq<InSec>, base: nat, table: map<string, nat>, es: seq<Entry>, rels: seq<Rel>)
    requires EntriesOk(ins, es) && SitesOk(ins, es) && AllRels(ins, base, table, es, |es|, rels)
    ensures RelsOk(ins, rels)
  {
    hide RefValue, Target;
    forall i | 0 <= i < |rels| ensures RelOk(ins, rels[i]) { assert RelOk(ins, SiteRel(es[i])); }
    forall i, j | 0 <= i < j < |rels| ensures Apart(rels[i], rels[j]) { assert Apart(SiteRel(es[i]), SiteRel(es[j])); }
  }

  /** The check that every undefined global symbol has a definition. */
  method AllDefined(table: map<string, nat>, needed: seq<string>) returns (ok: bool)
    ensures ok <==> forall n :: n in needed ==> n in table
  {
    for i := 0 to |needed|
      invariant forall j :: 0 <= j < i ==> needed[j] in table
    {
      if needed[i] !in table {
        return false;
      }
    }
    ok := true;
  }

  /** The program: the file part of the segment, and where it starts. */
  datatype Program = Program(entry: nat, bytes: seq<Byte>)

  /** A name has a definition, its own or the linker's. */
  ghost predicate Available(ds: seq<Definition>, name: string) {
    name == KERNEL_END || exists i :: Defines(ds, i, name)
  }

  /** The table of addresses of all global names. */
  function Globals(ins: seq<InSec>, base: nat, ds: seq<Definition>): map<string, nat>
    requires forall i :: 0 <= i < |ds| ==> SymbolOk(ins, ds[i].value)
  {
    Resolve(Addressed(ins, base, WithEnd(ins, base, ds)))
  }

  lemma EndOk(ins: seq<InSec>, base: nat, ds: seq<Definition>)
    requires DefinitionsOk(ins, ds)
    ensures DefinitionsOk(ins, WithEnd(ins, base, ds))
  {
  }

  /** From input sections, definitions, undefined names and relocation entries to the program,
      whose bytes LoadedWord, LoadedByte, LoadedGap and PointerLoaded speak about; None exactly
      if a needed name or the entry point is not defined. */
  method Link(ins: seq<InSec>, base: nat, ds: seq<Definition>, needed: seq<string>, es: seq<Entry>)
    returns (r: Option<Program>, rels: seq<Rel>)
    requires DefinitionsOk(ins, ds) && EntriesOk(ins, es) && SitesOk(ins, es)
    ensures r.Some? <==> (forall n :: n in needed ==> Available(ds, n)) && Available(ds, START)
    ensures r.Some? ==>
      && START in Globals(ins, base, ds) && r.value.entry == Globals(ins, base, ds)[START]
      && AllRels(ins, base, Globals(ins, base, ds), es, |es|, rels)
      && RelsOk(ins, rels) && IsSegment(ins, base, rels, r.value.bytes)
  {
    hide Contents, Vaddr, Applied, RelOk, AllContents, AllOffsets, AllApplied, IsSegment, Resolve, Addressed, AllRels,
         SitesOk, Available, KernelEnd;
    r, rels := None, [];
    var secs, offsets := CollectSections(ins);
    var vaddr := LayoutSections(ins, secs, base);
    EndOk(ins, base, ds);
    var end := EndOf(ins, secs, vaddr, base);
    var full := ds + [Def(KERNEL_END, true, Absolute(end))];
    var defs := AddressDefinitions(ins, offsets, vaddr, base, full);
    var table := CollectGlobals(defs);
    forall n ensures n in table <==> Available(ds, n) {
      AvailableExactly(ins, base, ds, n);
    }
    var ok := AllDefined(table, needed);
    if !ok {
      return;
    }
    rels := ResolveEntries(ins, offsets, vaddr, base, table, es);
    ResolvedRelsOk(ins, base, table, es, rels);
    ApplyRelocations(ins, secs, offsets, vaddr, base, rels);
    if START !in table {
      return;
    }
    var a := BuildSegment(ins, secs, vaddr, base, rels);
    r := Some(Program(table[START], a[..]));
  }

  method EndOf(ins: seq<InSec>, secs: array<seq<Byte>>, vaddr: array<nat>, base: nat) returns (end: nat)
    requires AllContents(ins, secs[..])
    requires vaddr.Length == SECTIONS && forall t :: 0 <= t < SECTIONS ==> vaddr[t] == Vaddr(ins, base, t)
    ensures end == KernelEnd(ins, base)
  {
    hide Contents, Vaddr, AlignUp;
    end := AlignUp(vaddr[BSS] + |secs[BSS]|, 4096);
  }

  lemma AvailableExactly(ins: seq<InSec>, base: nat, ds: seq<Definition>, name: string)
    requires DefinitionsOk(ins, ds)
    ensures name in Globals(ins, base, ds) <==> Available(ds, name)
  {
    hide Resolve, SymbolAddress, KernelEnd;
    var full := WithEnd(ins, base, ds);
    var defs := Addressed(ins, base, full);
    ResolvedExactly(defs, name);
    if name == KERNEL_END {
      assert Defines(defs, |ds|, name);
    }
    if i: nat :| Defines(ds, i, name) { assert Defines(defs, i, name); }
    if i: nat :| Defines(defs, i, name) && name != KERNEL_END { assert Defines(ds, i, name); }
  }
}
