/**
  The object file: sections, the symbol table with local symbols in front, and the relocations,
  grouped by section, with the new indices of their symbols.
 */
module ObjectFile {
  import opened Prelude
  import opened AsmSymbols
  import opened TwoPass
  import opened LinkLayout

  /** A section as the directives declare it. */
  datatype SecDecl = SecDecl(name: string, nobits: bool)

  /** A source file: its lines, and the sections that they count from one. */
  datatype Source = Source(lines: seq<Line>, secs: seq<SecDecl>)

  datatype Elf = Elf(name: string, home: Home, value: nat, size: nat, global: bool)

  datatype ElfRel = ElfRel(section: nat, offset: nat, sym: nat, pcrel: bool)

  datatype Object = Object(secs: seq<InSec>, symtab: seq<Elf>, rels: seq<ElfRel>)

  const NO_SYMBOL := Elf("", Nowhere, 0, 0, false)

  /** A symbol without a definition is left to the linker. */
  function ElfOf(name: string, x: Sym): Elf {
    if x.home == Nowhere then Elf(name, Nowhere, 0, x.size, true) else Elf(name, x.home, x.value, x.size, x.global)
  }

  function EntryOf(t: Table, i: nat): Elf
    requires i < |t.names|
  {
    ElfOf(t.names[i], Look(t, t.names[i]))
  }

  // ----- The symbol table -----

  /** Every symbol has one entry, under its new index; local ones come first. */
  ghost predicate Reindexed(t: Table, symtab: seq<Elf>, reindex: seq<nat>) {
    && |reindex| == |t.names| && |symtab| == 1 + |t.names| && symtab[0] == NO_SYMBOL
    && Distinct(reindex)
    && (forall i :: 0 <= i < |reindex| ==> 1 <= reindex[i] < |symtab| && symtab[reindex[i]] == EntryOf(t, i))
    && (forall j, k :: 1 <= j < k < |symtab| && symtab[j].global ==> symtab[k].global)
  }

  /** Within one of the two loops: the symbols of this kind among the first n are entered. */
  ghost predicate Entering(t: Table, symtab: seq<Elf>, reindex: seq<nat>, entered: set<nat>) {
    && |reindex| == |t.names| && |symtab| == 1 + |entered| && symtab[0] == NO_SYMBOL
    && (forall i :: i in entered ==> i < |t.names| && 1 <= reindex[i] < |symtab| && symtab[reindex[i]] == EntryOf(t, i))
    && (forall i, j :: i in entered && j in entered && i != j ==> reindex[i] != reindex[j])
    && (forall j, k :: 1 <= j < k < |symtab| && symtab[j].global ==> symtab[k].global)
  }

  lemma EnterOne(t: Table, symtab: seq<Elf>, reindex: seq<nat>, entered: set<nat>, i: nat)
    requires Entering(t, symtab, reindex, entered) && i < |t.names| && i !in entered
    requires !EntryOf(t, i).global ==> forall k :: 1 <= k < |symtab| ==> !symtab[k].global
    ensures Entering(t, symtab + [EntryOf(t, i)], reindex[i := |symtab|], entered + {i})
  {
    hide EntryOf;
  }

  /** The symbols of one kind among the first n. */
  ghost function OfKind(t: Table, global: bool, n: nat): set<nat>
    requires n <= |t.names|
  {
    set i | 0 <= i < n && EntryOf(t, i).global == global
  }

  lemma KindNone(t: Table, global: bool)
    ensures OfKind(t, global, 0) == {}
  {
  }

  lemma KindStep(t: Table, global: bool, n: nat)
    requires n < |t.names|
    ensures OfKind(t, global, n + 1) == OfKind(t, global, n) + if EntryOf(t, n).global == global then {n} else {}
    ensures n !in OfKind(t, global, n)
  {
    hide EntryOf;
  }

  ghost predicate AllLocal(symtab: seq<Elf>) { forall k :: 1 <= k < |symtab| ==> !symtab[k].global }

  /** One loop over the symbols: those of one kind are appended. */
  method EnterKind(t: Table, global: bool, symtab0: seq<Elf>, reindex: array<nat>, ghost before: set<nat>)
    returns (symtab: seq<Elf>)
    requires Entering(t, symtab0, reindex[..], before)
    requires forall i :: i in before ==> i < |t.names| && EntryOf(t, i).global != global
    requires !global ==> AllLocal(symtab0)
    modifies reindex
    ensures Entering(t, symtab, reindex[..], before + OfKind(t, global, |t.names|))
    ensures !global ==> AllLocal(symtab)
  {
    hide EntryOf, Entering, OfKind;
    symtab := symtab0;
    KindNone(t, global);
    assert before + {} == before;
    EnteringSize(t, symtab, reindex[..], before);
    var i := 0;
    while i < |t.names|
      invariant 0 <= i <= |t.names| == reindex.Length
      invariant Entering(t, symtab, reindex[..], before + OfKind(t, global, i))
      invariant !global ==> AllLocal(symtab)
    {
      ghost var entered := before + OfKind(t, global, i);
      KindStep(t, global, i);
      var e := EntryOf(t, i);
      if e.global == global {
        assert i !in entered;
        EnterOne(t, symtab, reindex[..], entered, i);
        ghost var r: seq<nat> := reindex[..];
        var next: nat := |symtab|;
        reindex[i] := next;
        assert reindex[..] == r[i := next];
        symtab := symtab + [e];
        assert entered + {i} == before + OfKind(t, global, i + 1);
      } else {
        assert entered == before + OfKind(t, global, i + 1);
      }
      i := i + 1;
    }
  }

  lemma EnteringSize(t: Table, symtab: seq<Elf>, reindex: seq<nat>, entered: set<nat>)
    requires Entering(t, symtab, reindex, entered)
    ensures |reindex| == |t.names|
  {
  }

  method BuildSymtab(t: Table) returns (symtab: seq<Elf>, reindex: array<nat>)
    ensures fresh(reindex) && Reindexed(t, symtab, reindex[..])
    ensures symtab != [] && symtab[0] == Elf("", Nowhere, 0, 0, false)
  {
    reindex := new nat[|t.names|](_ => 0);
    symtab := [NO_SYMBOL];
    symtab := EnterKind(t, false, symtab, reindex, {});
    ghost var locals := OfKind(t, false, |t.names|);
    assert {} + locals == locals;
    symtab := EnterKind(t, true, symtab, reindex, locals);
    AllEntered(t, symtab, reindex[..]);
  }

  lemma AllEntered(t: Table, symtab: seq<Elf>, reindex: seq<nat>)
    requires Entering(t, symtab, reindex, OfKind(t, false, |t.names|) + OfKind(t, true, |t.names|))
    ensures Reindexed(t, symtab, reindex)
  {
    var all := OfKind(t, false, |t.names|) + OfKind(t, true, |t.names|);
    assert forall i :: 0 <= i < |t.names| ==> i in all;
    hide EntryOf;
    Count(|t.names|, all);
  }

  /** The numbers below n are n in number. */
  lemma {:induction false} Count(n: nat, s: set<nat>)
    requires forall i: nat :: i in s <==> i < n
    ensures |s| == n
  {
    if n > 0 {
      var r := s - {n - 1};
      Count(n - 1, r);
      assert s == r + {n - 1};
    } else {
      assert s == {};
    }
  }

  // ----- Relocations -----

  function ElfRelOf(reindex: seq<nat>, f: Fixup): ElfRel {
    ElfRel(f.section, f.offset, if f.sym < |reindex| then reindex[f.sym] else 0, f.pcrel)
  }

  /** The relocations of one section among the first n, in their order. */
  function RelsIn(reindex: seq<nat>, fs: seq<Fixup>, n: nat, sec: nat): seq<ElfRel>
    requires n <= |fs|
  {
    if n == 0 then []
    else
      var rs := RelsIn(reindex, fs, n - 1, sec);
      if fs[n - 1].section == sec then rs + [ElfRelOf(reindex, fs[n - 1])] else rs
  }

  /** Section by section, the first m sections. */
  function Grouped(reindex: seq<nat>, fs: seq<Fixup>, m: nat): seq<ElfRel> {
    if m == 0 then [] else Grouped(reindex, fs, m - 1) + RelsIn(reindex, fs, |fs|, m)
  }

  method WriteRelocations(reindex: array<nat>, fs: seq<Fixup>, m: nat) returns (rels: seq<ElfRel>)
    ensures rels == Grouped(reindex[..], fs, m)
  {
    rels := [];
    var sec := 1;
    while sec <= m
      invariant 1 <= sec <= m + 1
      invariant rels == Grouped(reindex[..], fs, sec - 1)
    {
      ghost var front := rels;
      var r := 0;
      while r < |fs|
        invariant 0 <= r <= |fs|
        invariant rels == front + RelsIn(reindex[..], fs, r, sec)
      {
        if fs[r].section == sec {
          var f := fs[r];
          rels := rels + [ElfRel(f.section, f.offset, if f.sym < reindex.Length then reindex[f.sym] else 0, f.pcrel)];
        }
        r := r + 1;
      }
      sec := sec + 1;
    }
  }

  /** Relocations of one section are in order and apart. */
  ghost predicate SpacedRels(rs: seq<ElfRel>) {
    forall k, l :: 0 <= k < l < |rs| && rs[k].section == rs[l].section ==> rs[k].offset + 4 <= rs[l].offset
  }

  ghost predicate FromTable(reindex: seq<nat>, fs: seq<Fixup>, n: nat, r: ElfRel)
    requires n <= |fs|
  {
    exists i :: 0 <= i < n && r == ElfRelOf(reindex, fs[i])
  }

  lemma {:induction false} RelsInSpaced(reindex: seq<nat>, fs: seq<Fixup>, n: nat, sec: nat)
    requires n <= |fs| && Spaced(fs)
    ensures SpacedRels(RelsIn(reindex, fs, n, sec))
    ensures forall k :: 0 <= k < |RelsIn(reindex, fs, n, sec)| ==>
      RelsIn(reindex, fs, n, sec)[k].section == sec && FromTable(reindex, fs, n, RelsIn(reindex, fs, n, sec)[k])
  {
    if n > 0 {
      RelsInSpaced(reindex, fs, n - 1, sec);
      var rs := RelsIn(reindex, fs, n - 1, sec);
      forall k | 0 <= k < |rs|
        ensures FromTable(reindex, fs, n, rs[k])
        ensures fs[n - 1].section == sec ==> rs[k].offset + 4 <= fs[n - 1].offset
      {
        assert FromTable(reindex, fs, n - 1, rs[k]);
        var i :| 0 <= i < n - 1 && rs[k] == ElfRelOf(reindex, fs[i]);
      }
      assert FromTable(reindex, fs, n, ElfRelOf(reindex, fs[n - 1]));
    }
  }

  /** The grouped list has the relocations of the table, in order and apart. */
  lemma {:induction false} GroupedSpaced(reindex: seq<nat>, fs: seq<Fixup>, m: nat)
    requires Spaced(fs)
    ensures SpacedRels(Grouped(reindex, fs, m))
    ensures forall k :: 0 <= k < |Grouped(reindex, fs, m)| ==>
      1 <= Grouped(reindex, fs, m)[k].section <= m && FromTable(reindex, fs, |fs|, Grouped(reindex, fs, m)[k])
  {
    if m > 0 {
      hide FromTable, RelsIn;
      GroupedSpaced(reindex, fs, m - 1);
      RelsInSpaced(reindex, fs, |fs|, m);
    }
  }

  lemma {:induction false} RelsInHas(reindex: seq<nat>, fs: seq<Fixup>, n: nat, i: nat)
    requires i < n <= |fs|
    ensures ElfRelOf(reindex, fs[i]) in RelsIn(reindex, fs, n, fs[i].section)
  {
    hide ElfRelOf;
    if i < n - 1 { RelsInHas(reindex, fs, n - 1, i); }
  }

  lemma {:induction false} GroupedHas(reindex: seq<nat>, fs: seq<Fixup>, m: nat, i: nat)
    requires i < |fs| && 1 <= fs[i].section <= m
    ensures ElfRelOf(reindex, fs[i]) in Grouped(reindex, fs, m)
  {
    hide ElfRelOf, RelsIn;
    if fs[i].section < m { GroupedHas(reindex, fs, m - 1, i); } else { RelsInHas(reindex, fs, |fs|, i); }
  }

  // ----- The file -----

  /** A section without file contents stands for that many zero bytes. */
  function SectionOf(src: Source, s: State, k: nat): InSec
    requires k < |src.secs|
  {
    var code := CodeOf(s, k + 1);
    InSec(src.secs[k].name, true, src.secs[k].nobits, AlignIn(s.aligns, k + 1),
          if src.secs[k].nobits then Zeros(|code|) else code)
  }

  ghost predicate IsObject(src: Source, obj: Object, reindex: seq<nat>) {
    var s := Final(src.lines);
    && |obj.secs| == |src.secs|
    && (forall k :: 0 <= k < |src.secs| ==> obj.secs[k] == SectionOf(src, s, k))
    && Reindexed(s.table, obj.symtab, reindex)
    && obj.rels == Grouped(reindex, s.relocs, |src.secs|)
  }

  /** The assembler, from the lines of a file to its object. */
  method AssembleFile(src: Source) returns (obj: Object, reindex: array<nat>)
    ensures IsObject(src, obj, reindex[..])
  {
    hide Final, Reindexed, Grouped;
    var a := new Assembler();
    a.Assemble(src.lines);
    ghost var s := a.Now();
    var symtab;
    symtab, reindex := BuildSymtab(a.table);
    var rels := WriteRelocations(reindex, a.relocs, |src.secs|);
    var secs: seq<InSec> := [];
    var k := 0;
    while k < |src.secs|
      invariant 0 <= k <= |src.secs| && |secs| == k && a.Now() == s
      invariant forall j :: 0 <= j < k ==> secs[j] == SectionOf(src, s, j)
    {
      var code := if k + 1 in a.code then a.code[k + 1] else [];
      var align := if k + 1 in a.aligns then a.aligns[k + 1] else 4;
      var d := src.secs[k];
      secs := secs + [InSec(d.name, true, d.nobits, align, if d.nobits then Zeros(|code|) else code)];
      k := k + 1;
    }
    obj := Object(secs, symtab, rels);
  }
}
