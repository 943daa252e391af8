/**
  What the linker reads from a list of object files: their sections one after the other, common
  symbols as further .bss sections, the definitions of global symbols, and the relocations.
 */
module LinkInput {
  import opened Prelude
  import opened AsmSymbols
  import opened TwoPass
  import opened LinkLayout
  import opened ObjectFile
  import Linker

  /** A file with its object and the new indices of its symbols. */
  datatype Unit = Unit(src: Source, obj: Object, reindex: seq<nat>)

  function Table(u: Unit): AsmSymbols.Table { Final(u.src.lines).table }

  // ----- Sections -----

  function Sections(us: seq<Unit>): seq<InSec> {
    if us == [] then [] else Sections(us[..|us| - 1]) + us[|us| - 1].obj.secs
  }

  /** The number of the first section of file f. */
  function SecBase(us: seq<Unit>, f: nat): nat
    requires f <= |us|
  {
    |Sections(us[..f])|
  }

  lemma {:induction false} SectionsPrefix(us: seq<Unit>, f: nat)
    requires f <= |us|
    ensures Sections(us[..f]) <= Sections(us)
  {
    if f == |us| {
      assert us[..f] == us;
    } else {
      var n := |us| - 1;
      SectionsPrefix(us[..n], f);
      assert us[..n][..f] == us[..f];
    }
  }

  lemma NextBase(us: seq<Unit>, f: nat)
    requires f < |us|
    ensures SecBase(us, f + 1) == SecBase(us, f) + |us[f].obj.secs|
    ensures Sections(us[..f + 1]) == Sections(us[..f]) + us[f].obj.secs
  {
    assert us[..f + 1][..f] == us[..f];
  }

  lemma {:induction false} BaseOrder(us: seq<Unit>, f: nat, g: nat)
    requires f < g <= |us|
    ensures SecBase(us, f) + |us[f].obj.secs| <= SecBase(us, g)
    decreases g
  {
    hide SecBase;
    NextBase(us, g - 1);
    if f < g - 1 { BaseOrder(us, f, g - 1); }
  }

  /** Section k of file f. */
  lemma SectionAt(us: seq<Unit>, f: nat, k: nat)
    requires f < |us| && k < |us[f].obj.secs|
    ensures SecBase(us, f) + k < |Sections(us)| && Sections(us)[SecBase(us, f) + k] == us[f].obj.secs[k]
  {
    NextBase(us, f);
    SectionsPrefix(us, f + 1);
    hide Sections;
    assert Sections(us)[..SecBase(us, f + 1)] == Sections(us[..f + 1]);
  }

  // ----- Common symbols -----

  /** A common symbol is storage in .bss; its value is its alignment. */
  function CommonSec(e: Elf): InSec { InSec(".bss", true, true, e.value, Zeros(e.size)) }

  function CommonsIn(symtab: seq<Elf>, n: nat): seq<InSec>
    requires n <= |symtab|
  {
    if n == 0 then []
    else CommonsIn(symtab, n - 1) + if symtab[n - 1].home == Shared then [CommonSec(symtab[n - 1])] else []
  }

  function Commons(us: seq<Unit>): seq<InSec> {
    if us == [] then []
    else
      var symtab := us[|us| - 1].obj.symtab;
      Commons(us[..|us| - 1]) + CommonsIn(symtab, |symtab|)
  }

  /** All input sections: those of the files, then the common storage. */
  function Inputs(us: seq<Unit>): seq<InSec> { Sections(us) + Commons(us) }

  lemma InputAt(us: seq<Unit>, f: nat, k: nat)
    requires f < |us| && k < |us[f].obj.secs|
    ensures SecBase(us, f) + k < |Inputs(us)| && Inputs(us)[SecBase(us, f) + k] == us[f].obj.secs[k]
  {
    hide Sections, SecBase, Commons;
    SectionAt(us, f, k);
  }

  // ----- Symbols -----

  /** Where a defined symbol of a file points. */
  function SymbolOf(e: Elf, base: nat): Linker.Symbol {
    match e.home
    case In(sec) => if sec > 0 then Linker.Placed(base + sec - 1, e.value) else Linker.Absolute(e.value)
    case _ => Linker.Absolute(e.value)
  }

  /** The definitions in a symbol table; com is the number of its first common section. */
  function DefsIn(symtab: seq<Elf>, n: nat, base: nat, com: nat): seq<Linker.Definition>
    requires n <= |symtab|
  {
    if n == 0 then []
    else
      var e := symtab[n - 1];
      DefsIn(symtab, n - 1, base, com) +
      if e.home == Shared then [Linker.Def(e.name, true, Linker.Placed(com + |CommonsIn(symtab, n - 1)|, 0))]
      else if e.global && e.home != Nowhere then [Linker.Def(e.name, true, SymbolOf(e, base))]
      else []
  }

  function DefsOf(us: seq<Unit>, f: nat): seq<Linker.Definition>
    requires f < |us|
  {
    var symtab := us[f].obj.symtab;
    DefsIn(symtab, |symtab|, SecBase(us, f), |Sections(us)| + |Commons(us[..f])|)
  }

  /** The definitions of the first n files. */
  function Defs(us: seq<Unit>, n: nat): seq<Linker.Definition>
    requires n <= |us|
  {
    if n == 0 then [] else Defs(us, n - 1) + DefsOf(us, n - 1)
  }

  /** Names that a file leaves to others. */
  function NeededIn(symtab: seq<Elf>, n: nat): seq<string>
    requires n <= |symtab|
  {
    if n == 0 then []
    else
      var e := symtab[n - 1];
      NeededIn(symtab, n - 1) + if e.global && e.home == Nowhere then [e.name] else []
  }

  function Needed(us: seq<Unit>): seq<string> {
    if us == [] then []
    else
      var symtab := us[|us| - 1].obj.symtab;
      Needed(us[..|us| - 1]) + NeededIn(symtab, |symtab|)
  }

  /** What a relocation against a symbol table entry refers to. */
  function RefOf(e: Elf, base: nat): Linker.Ref {
    if !e.global && e.home != Nowhere then Linker.Local(SymbolOf(e, base)) else Linker.Named(e.name)
  }

  function EntryFor(u: Unit, base: nat, r: ElfRel): Linker.Entry {
    var e := if r.sym < |u.obj.symtab| then u.obj.symtab[r.sym] else NO_SYMBOL;
    Linker.Entry(if r.section > 0 then base + r.section - 1 else base, r.offset, 4, r.pcrel, RefOf(e, base))
  }

  function EntriesOf(us: seq<Unit>, f: nat): (r: seq<Linker.Entry>)
    requires f < |us|
    ensures |r| == |us[f].obj.rels|
  {
    seq(|us[f].obj.rels|, i requires 0 <= i < |us[f].obj.rels| => EntryFor(us[f], SecBase(us, f), us[f].obj.rels[i]))
  }

  /** The relocations of the first n files. */
  function Entries(us: seq<Unit>, n: nat): seq<Linker.Entry>
    requires n <= |us|
  {
    if n == 0 then [] else Entries(us, n - 1) + EntriesOf(us, n - 1)
  }

  // ----- Well-formed programs -----

  ghost predicate Fits(d: SecDecl) {
    d.nobits <==> Target(InSec(d.name, true, d.nobits, 4, [])) == Some(BSS)
  }

  /** Lines stay in declared sections, section types fit their names, no symbol is filled into a
      section without contents, and common symbols are global. */
  ghost predicate SourceOk(src: Source) {
    && (forall n :: 0 <= n <= |src.lines| ==> 1 <= CurAfter(src.lines, n) <= |src.secs|)
    && (forall k :: 0 <= k < |src.secs| ==> Fits(src.secs[k]))
    && (forall i :: 0 <= i < |src.lines| && SitesOf(src.lines[i].stmt, PlaceAfter(src.lines, i)) != [] ==>
          !src.secs[CurAfter(src.lines, i) - 1].nobits)
    && (forall name :: Look(Final(src.lines).table, name).home == Shared ==> Look(Final(src.lines).table, name).global)
  }

  ghost predicate UnitOk(u: Unit) { SourceOk(u.src) && IsObject(u.src, u.obj, u.reindex) }

  ghost predicate ProgramOk(us: seq<Unit>) { forall f :: 0 <= f < |us| ==> UnitOk(us[f]) }

  /** The relocations of a unit are those of its lines, in order and apart, inside its sections. */
  lemma UnitRels(u: Unit)
    requires UnitOk(u)
    ensures SpacedRels(u.obj.rels)
    ensures forall i :: 0 <= i < |u.obj.rels| ==> RelInside(u, u.obj.rels[i])
  {
    hide Final, SourceOk, Reindexed, Grouped;
    var s := Final(u.src.lines);
    FinalRelocs(u.src.lines);
    GroupedSpaced(u.reindex, s.relocs, |u.src.secs|);
    forall i | 0 <= i < |u.obj.rels| ensures RelInside(u, u.obj.rels[i]) {
      var r := u.obj.rels[i];
      assert FromTable(u.reindex, s.relocs, |s.relocs|, r);
      var k :| 0 <= k < |s.relocs| && r == ElfRelOf(u.reindex, s.relocs[k]);
      RelFromFixup(u, k);
    }
  }

  /** A relocation of a section with contents, inside it. */
  ghost predicate RelInside(u: Unit, r: ElfRel) {
    && 1 <= r.section <= |u.src.secs| == |u.obj.secs|
    && r.offset + 4 <= |u.obj.secs[r.section - 1].bytes|
    && Target(u.obj.secs[r.section - 1]) != Some(BSS)
  }

  lemma FinalRelocs(lines: seq<Line>)
    ensures Final(lines).relocs == FixupsOf(Final(lines).table.names, lines, |lines|)
    ensures Spaced(Final(lines).relocs)
    ensures forall k :: 0 <= k < |Final(lines).relocs| ==>
      Final(lines).relocs[k].offset + 4 <= |CodeOf(Final(lines), Final(lines).relocs[k].section)|
  {
    hide FixupsOf, Spaced, CodeOf, SecondPass, SizeAfter, Run;
    SecondRelocs(lines, |lines|);
    FixupsSpaced(Final(lines).table.names, lines, |lines|);
    forall k | 0 <= k < |Final(lines).relocs|
      ensures Final(lines).relocs[k].offset + 4 <= |CodeOf(Final(lines), Final(lines).relocs[k].section)|
    {
      PassesAgree(lines, |lines|, Final(lines).relocs[k].section);
    }
  }

  lemma RelFromFixup(u: Unit, k: nat)
    requires UnitOk(u) && k < |Final(u.src.lines).relocs|
    ensures RelInside(u, ElfRelOf(u.reindex, Final(u.src.lines).relocs[k]))
  {
    hide Final, FixupsOf, CurAfter, PlaceAfter, SitesOf, Target, CodeOf;
    var s := Final(u.src.lines);
    FinalRelocs(u.src.lines);
    var i, x := FixupFrom(s.table.names, u.src.lines, |u.src.lines|, k);
    var sec := s.relocs[k].section;
    assert sec == CurAfter(u.src.lines, i);
    assert SitesOf(u.src.lines[i].stmt, PlaceAfter(u.src.lines, i)) != [];
    var d := u.src.secs[sec - 1];
    assert !d.nobits && Fits(d);
    assert u.obj.secs[sec - 1] == SectionOf(u.src, s, sec - 1);
    SameTarget(u.obj.secs[sec - 1], InSec(d.name, true, d.nobits, 4, []));
  }

  lemma SameTarget(a: InSec, b: InSec)
    requires a.name == b.name && a.alloc == b.alloc
    ensures Target(a) == Target(b)
  {
  }

  // ----- The linker's conditions -----

  /** A symbol in a section is in one that the lines use. */
  lemma {:induction false} HomeUsed(lines: seq<Line>, n: nat, name: string) returns (i: nat)
    requires n <= |lines| && LastDef(TouchesOf(lines, n), name).Some?
    requires LastDef(TouchesOf(lines, n), name).value.0.In?
    ensures i <= n && LastDef(TouchesOf(lines, n), name).value.0 == In(CurAfter(lines, i))
  {
    hide LineTouches, CurAfter, PlaceAfter, LastDef;
    i := 0;
    if n == 0 {
      NoDef([], name);
    } else {
      var us := TouchesAt(lines, n - 1);
      LastDefAppend(TouchesOf(lines, n - 1), us, name);
      if LastDef(us, name).Some? {
        LineHome(lines[n - 1], CurAfter(lines, n - 1), PlaceAfter(lines, n - 1), name);
        i := n - 1;
      } else {
        i := HomeUsed(lines, n - 1, name);
      }
    }
  }

  lemma LineHome(l: Line, sec: nat, at: nat, name: string)
    ensures var d := LastDef(LineTouches(l, sec, at), name); d.Some? && d.value.0.In? ==> d.value.0 == In(sec)
  {
    LastDefAppend(MarkTouches(l.mark, sec, at), StmtTouches(l.stmt), name);
    hide PartsSites;
    if l.stmt.Emit? { MentionsOnly(PartsSites(l.stmt.parts, 0), name); }
    var ms, ts := MarkTouches(l.mark, sec, at), StmtTouches(l.stmt);
    if |ms| == 1 { assert ms[..0] == []; }
    if |ts| == 1 { assert ts[..0] == []; }
  }

  /** The sections of a symbol table exist. */
  ghost predicate HomesOk(symtab: seq<Elf>, m: nat) {
    forall j :: 0 <= j < |symtab| && symtab[j].home.In? ==> 1 <= symtab[j].home.section <= m
  }

  lemma UnitHomes(u: Unit)
    requires UnitOk(u)
    ensures HomesOk(u.obj.symtab, |u.obj.secs|)
    ensures forall j :: 0 <= j < |u.obj.symtab| && u.obj.symtab[j].home == Shared ==> u.obj.symtab[j].global
  {
    hide Final, CurAfter, PlaceAfter, SitesOf, Grouped, CodeOf;
    var t := Table(u);
    forall j | 1 <= j < |u.obj.symtab|
      ensures u.obj.symtab[j].home.In? ==> 1 <= u.obj.symtab[j].home.section <= |u.obj.secs|
      ensures u.obj.symtab[j].home == Shared ==> u.obj.symtab[j].global
    {
      var i := EntryFrom(t, u.obj.symtab, u.reindex, j);
      SymHome(u, t.names[i]);
    }
  }

  /** Every entry of the symbol table but the first belongs to a symbol. */
  lemma EntryFrom(t: AsmSymbols.Table, symtab: seq<Elf>, reindex: seq<nat>, j: nat) returns (i: nat)
    requires Reindexed(t, symtab, reindex) && 1 <= j < |symtab|
    ensures i < |t.names| && reindex[i] == j && symtab[j] == EntryOf(t, i)
  {
    hide EntryOf;
    i := Onto(reindex, |symtab| - 1, j);
  }

  /** Distinct numbers 1..n, n of them, reach every one. */
  lemma Onto(r: seq<nat>, n: nat, j: nat) returns (i: nat)
    requires |r| == n && Distinct(r) && (forall k :: 0 <= k < n ==> 1 <= r[k] <= n) && 1 <= j <= n
    ensures i < n && r[i] == j
  {
    if j !in r {
      DistinctBound(r + [j], 1, n + 1);
    }
    i :| 0 <= i < n && r[i] == j;
  }

  lemma SymHome(u: Unit, name: string)
    requires UnitOk(u)
    ensures var x := Look(Table(u), name);
      && (x.home.In? ==> 1 <= x.home.section <= |u.src.secs|)
      && (x.home == Shared ==> x.global)
  {
    hide Final, CurAfter, PlaceAfter, SitesOf, TouchesOf, ApplyAll, LastDef, IsObject, FirstPass;
    var lines := u.src.lines;
    SymbolsAgree(lines, |lines|);
    ApplyLook(EMPTY, TouchesOf(lines, |lines|), name);
    var d := LastDef(TouchesOf(lines, |lines|), name);
    if d.Some? && d.value.0.In? {
      var i := HomeUsed(lines, |lines|, name);
    }
  }

  lemma {:induction false} DefsInOk(us: seq<Unit>, symtab: seq<Elf>, n: nat, base: nat, m: nat, com: nat)
    requires n <= |symtab| && HomesOk(symtab, m) && base + m <= |Inputs(us)|
    requires com + |CommonsIn(symtab, n)| <= |Inputs(us)|
    ensures forall i :: 0 <= i < |DefsIn(symtab, n, base, com)| ==>
      Linker.SymbolOk(Inputs(us), DefsIn(symtab, n, base, com)[i].value)
  {
    hide Inputs;
    if n > 0 { DefsInOk(us, symtab, n - 1, base, m, com); }
  }

  lemma {:induction false} CommonsPrefix(us: seq<Unit>, f: nat)
    requires f <= |us|
    ensures |Commons(us[..f])| <= |Commons(us)|
    ensures f < |us| ==> |Commons(us[..f])| + |CommonsIn(us[f].obj.symtab, |us[f].obj.symtab|)| <= |Commons(us)|
  {
    hide CommonsIn;
    if f == |us| {
      assert us[..f] == us;
    } else {
      var n := |us| - 1;
      CommonsPrefix(us[..n], f);
      assert us[..n][..f] == us[..f];
    }
  }

  lemma InputSize(us: seq<Unit>, f: nat)
    requires f < |us|
    ensures SecBase(us, f) + |us[f].obj.secs| <= |Sections(us)| <= |Inputs(us)|
  {
    hide Sections, Commons;
    NextBase(us, f);
    SectionsPrefix(us, f + 1);
  }

  /** Every definition points into the program. */
  lemma {:induction false} DefsOk(us: seq<Unit>, n: nat)
    requires ProgramOk(us) && n <= |us|
    ensures Linker.DefinitionsOk(Inputs(us), Defs(us, n))
  {
    hide UnitOk, DefsIn, Inputs, SecBase, Commons, CommonsIn, Sections;
    if n > 0 {
      DefsOk(us, n - 1);
      var u := us[n - 1];
      UnitHomes(u);
      InputSize(us, n - 1);
      CommonsPrefix(us, n - 1);
      InputsSize(us);
      DefsInOk(us, u.obj.symtab, |u.obj.symtab|, SecBase(us, n - 1), |u.obj.secs|,
               |Sections(us)| + |Commons(us[..n - 1])|);
    }
  }

  lemma InputsSize(us: seq<Unit>)
    ensures |Inputs(us)| == |Sections(us)| + |Commons(us)|
  {
  }

  /** What the linker asks of a relocation, by file and position. */
  lemma EntrySite(us: seq<Unit>, f: nat, i: nat)
    requires ProgramOk(us) && f < |us| && i < |us[f].obj.rels|
    ensures var e := EntriesOf(us, f)[i]; var r := us[f].obj.rels[i];
      && SecBase(us, f) <= e.sec < SecBase(us, f) + |us[f].obj.secs|
      && e.sec == SecBase(us, f) + r.section - 1 && e.offset == r.offset && e.width == 4
      && Linker.RelOk(Inputs(us), Linker.SiteRel(e))
      && (e.ref.Local? ==> Linker.SymbolOk(Inputs(us), e.ref.symbol))
  {
    hide UnitOk, Inputs, SecBase, Target, HomesOk;
    var u := us[f];
    var r := u.obj.rels[i];
    UnitRels(u);
    UnitHomes(u);
    assert RelInside(u, r);
    InputAt(us, f, r.section - 1);
    InputSize(us, f);
    RefInside(us, f, if r.sym < |u.obj.symtab| then u.obj.symtab[r.sym] else NO_SYMBOL);
  }

  lemma RefInside(us: seq<Unit>, f: nat, e: Elf)
    requires f < |us| && HomesOk(us[f].obj.symtab, |us[f].obj.secs|)
    requires e in us[f].obj.symtab || e == NO_SYMBOL
    ensures var ref := RefOf(e, SecBase(us, f)); ref.Local? ==> Linker.SymbolOk(Inputs(us), ref.symbol)
  {
    hide Inputs, SecBase;
    InputSize(us, f);
  }

  ghost predicate EntriesApart(es: seq<Linker.Entry>) {
    forall i, j :: 0 <= i < j < |es| ==> Linker.Apart(Linker.SiteRel(es[i]), Linker.SiteRel(es[j]))
  }

  /** The relocations of all files are inside their sections and apart from each other. */
  lemma {:induction false} SitesAll(us: seq<Unit>, n: nat)
    requires ProgramOk(us) && n <= |us|
    ensures EntriesApart(Entries(us, n))
    ensures forall i :: 0 <= i < |Entries(us, n)| ==>
      var e := Entries(us, n)[i];
      && e.sec < SecBase(us, n) && Linker.RelOk(Inputs(us), Linker.SiteRel(e))
      && (e.ref.Local? ==> Linker.SymbolOk(Inputs(us), e.ref.symbol))
  {
    hide UnitOk, Inputs, SecBase, EntryFor, Linker.RelOk, Linker.SymbolOk;
    if n > 0 {
      SitesAll(us, n - 1);
      var u := us[n - 1];
      NextBase(us, n - 1);
      UnitRels(u);
      var a, b := Entries(us, n - 1), EntriesOf(us, n - 1);
      forall i | 0 <= i < |b|
        ensures SecBase(us, n - 1) <= b[i].sec < SecBase(us, n)
        ensures b[i].sec == SecBase(us, n - 1) + u.obj.rels[i].section - 1 && b[i].offset == u.obj.rels[i].offset
        ensures b[i].width == 4
        ensures Linker.RelOk(Inputs(us), Linker.SiteRel(b[i]))
        ensures b[i].ref.Local? ==> Linker.SymbolOk(Inputs(us), b[i].ref.symbol)
      {
        EntrySite(us, n - 1, i);
      }
    }
  }

  /** The inputs of every well-formed program meet the conditions of the linker. */
  lemma InputsOk(us: seq<Unit>)
    requires ProgramOk(us)
    ensures Linker.DefinitionsOk(Inputs(us), Defs(us, |us|))
    ensures Linker.EntriesOk(Inputs(us), Entries(us, |us|)) && Linker.SitesOk(Inputs(us), Entries(us, |us|))
  {
    hide ProgramOk, Inputs, Defs, Entries, Linker.RelOk, Linker.Apart;
    DefsOk(us, |us|);
    SitesAll(us, |us|);
  }

  /** Relocation i of file f is in the list. */
  lemma {:induction false} EntryListed(us: seq<Unit>, n: nat, f: nat, i: nat)
    requires f < n <= |us| && i < |us[f].obj.rels|
    ensures EntriesOf(us, f)[i] in Entries(us, n)
  {
    hide EntriesOf;
    if f < n - 1 { EntryListed(us, n - 1, f, i); }
  }

  /** Where a relocation in the list comes from. */
  lemma {:induction false} EntrySource(us: seq<Unit>, n: nat, q: nat) returns (f: nat, i: nat)
    requires n <= |us| && q < |Entries(us, n)|
    ensures f < n && i < |us[f].obj.rels| && Entries(us, n)[q] == EntriesOf(us, f)[i]
  {
    hide EntryFor;
    if q < |Entries(us, n - 1)| {
      f, i := EntrySource(us, n - 1, q);
    } else {
      f, i := n - 1, q - |Entries(us, n - 1)|;
    }
  }
}
