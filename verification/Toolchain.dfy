/**
  From assembly lines to the loaded program: the files are assembled, their objects are linked,
  and what the lines say is found again in the image that is loaded.
 */
module Toolchain {
  import opened Prelude
  import opened Words
  import opened ModRm
  import opened AsmSymbols
  import opened TwoPass
  import SymbolLaws
  import opened LinkLayout
  import opened ObjectFile
  import opened LinkInput
  import Linker

  // ----- Places and values -----

  function Lines(us: seq<Unit>, f: nat): seq<Line>
    requires f < |us|
  {
    us[f].src.lines
  }

  /** The input section of the linker that holds section sec of file f. */
  function InputOf(us: seq<Unit>, f: nat, sec: nat): nat
    requires f < |us|
  {
    if sec > 0 then SecBase(us, f) + sec - 1 else SecBase(us, f)
  }

  /** Line i of file f is in a section that is mapped to output section t. */
  ghost predicate Kept(us: seq<Unit>, f: nat, i: nat, t: nat) {
    && f < |us| && i <= |Lines(us, f)|
    && Mapped(Inputs(us), InputOf(us, f, CurAfter(Lines(us, f), i)), t)
  }

  /** Where byte o of the section of line i is in the segment. */
  function SpotIn(us: seq<Unit>, base: nat, f: nat, i: nat, t: nat, o: nat): int
    requires f < |us| && i <= |Lines(us, f)| && InputOf(us, f, CurAfter(Lines(us, f), i)) < |Inputs(us)|
  {
    Linker.PlaceOf(Inputs(us), base, InputOf(us, f, CurAfter(Lines(us, f), i)), t) + o
  }

  /** Where line i of file f is in the segment. */
  function LineAt(us: seq<Unit>, base: nat, f: nat, i: nat, t: nat): int
    requires f < |us| && i <= |Lines(us, f)| && InputOf(us, f, CurAfter(Lines(us, f), i)) < |Inputs(us)|
  {
    SpotIn(us, base, f, i, t, PlaceAfter(Lines(us, f), i))
  }

  /** What a name in file f refers to. */
  function RefTo(us: seq<Unit>, f: nat, name: string): Linker.Ref
    requires f < |us|
  {
    RefOf(ElfOf(name, Look(LinkInput.Table(us[f]), name)), SecBase(us, f))
  }

  lemma RefToOk(us: seq<Unit>, f: nat, name: string)
    requires ProgramOk(us) && f < |us|
    ensures RefTo(us, f, name).Local? ==> Linker.SymbolOk(Inputs(us), RefTo(us, f, name).symbol)
  {
    hide UnitOk, Inputs, SecBase, LinkInput.Table;
    SymHome(us[f], name);
    SectionsAre(us[f]);
    InputSize(us, f);
  }

  lemma SectionsAre(u: Unit)
    requires UnitOk(u)
    ensures |u.obj.secs| == |u.src.secs|
    ensures forall k :: 0 <= k < |u.src.secs| ==> u.obj.secs[k] == SectionOf(u.src, Final(u.src.lines), k)
    ensures Reindexed(LinkInput.Table(u), u.obj.symtab, u.reindex)
    ensures u.obj.rels == Grouped(u.reindex, Final(u.src.lines).relocs, |u.src.secs|)
  {
    hide SourceOk, Final, SectionOf, Reindexed, Grouped;
  }

  /** The addresses of the global names. */
  function GlobalsOf(us: seq<Unit>, base: nat): map<string, nat>
    requires Linker.DefinitionsOk(Inputs(us), Defs(us, |us|))
  {
    Linker.Globals(Inputs(us), base, Defs(us, |us|))
  }

  /** The value of a name in file f. */
  ghost function NameValue(us: seq<Unit>, base: nat, f: nat, name: string): nat
    requires ProgramOk(us) && f < |us|
  {
    DefsOk(us, |us|);
    RefToOk(us, f, name);
    Linker.RefValue(Inputs(us), base, GlobalsOf(us, base), RefTo(us, f, name))
  }

  /** The files were linked at base, with these relocations, into this segment. */
  ghost predicate IsLinked(us: seq<Unit>, base: nat, rels: seq<Linker.Rel>, img: seq<Byte>) {
    && ProgramOk(us)
    && Linker.DefinitionsOk(Inputs(us), Defs(us, |us|)) && Linker.EntriesOk(Inputs(us), Entries(us, |us|))
    && Linker.AllRels(Inputs(us), base, GlobalsOf(us, base), Entries(us, |us|), |Entries(us, |us|)|, rels)
    && Linker.RelsOk(Inputs(us), rels) && Linker.IsSegment(Inputs(us), base, rels, img)
  }

  lemma LinkedFacts(us: seq<Unit>, base: nat, rels: seq<Linker.Rel>, img: seq<Byte>)
    requires IsLinked(us, base, rels, img)
    ensures ProgramOk(us) && Linker.RelsOk(Inputs(us), rels) && Linker.IsSegment(Inputs(us), base, rels, img)
    ensures |rels| == |Entries(us, |us|)|
    ensures forall q :: 0 <= q < |rels| ==>
      var e := Entries(us, |us|)[q]; var r := rels[q];
      r.sec == e.sec && r.offset == e.offset && r.width == e.width && r.pcrel == e.pcrel
  {
    hide ProgramOk, Inputs, Defs, Entries, Linker.RelsOk, Linker.IsSegment, GlobalsOf, Linker.RefValue;
  }

  // ----- Sections in the image -----

  /** Every line of a section of one of the linker's kinds is in the output. */
  ghost predicate LinesKept(us: seq<Unit>) {
    forall f: nat, i: nat, kind: nat ::
      f < |us| && i <= |Lines(us, f)| && NamedSection(us[f].src, i, kind) ==> Kept(us, f, i, kind)
  }

  ghost predicate NamedSection(src: Source, i: nat, kind: nat)
    requires i <= |src.lines|
  {
    1 <= CurAfter(src.lines, i) <= |src.secs| && Named(src.secs[CurAfter(src.lines, i) - 1].name, kind)
  }

  lemma AllLinesKept(us: seq<Unit>)
    requires ProgramOk(us)
    ensures LinesKept(us)
  {
    hide ProgramOk, Inputs, InputOf, CurAfter, Named, Target, Final;
    forall f: nat, i: nat, kind: nat
      | f < |us| && i <= |Lines(us, f)| && NamedSection(us[f].src, i, kind)
      ensures Kept(us, f, i, kind)
    {
      LineSection(us, f, i);
      TargetExactly(Inputs(us)[InputOf(us, f, CurAfter(Lines(us, f), i))], kind);
    }
  }

  /** The contents of the section of a line, as the linker reads them. */
  lemma LineSection(us: seq<Unit>, f: nat, i: nat)
    requires ProgramOk(us) && f < |us| && i <= |Lines(us, f)|
    ensures var sec := CurAfter(Lines(us, f), i); var k := InputOf(us, f, sec);
      && 1 <= sec <= |us[f].src.secs| && k < |Inputs(us)|
      && SecBase(us, f) <= k < SecBase(us, f) + |us[f].obj.secs| && k == SecBase(us, f) + sec - 1
      && Inputs(us)[k] == SectionOf(us[f].src, Final(Lines(us, f)), sec - 1)
      && Fits(us[f].src.secs[sec - 1])
  {
    hide Final, Inputs, SecBase, SectionOf, CurAfter, IsObject, Fits, PlaceAfter, SitesOf, Look;
    SectionsAre(us[f]);
    SourceFacts(us[f].src, i);
    InputAt(us, f, CurAfter(Lines(us, f), i) - 1);
  }

  lemma SourceFacts(src: Source, i: nat)
    requires SourceOk(src) && i <= |src.lines|
    ensures 1 <= CurAfter(src.lines, i) <= |src.secs| && Fits(src.secs[CurAfter(src.lines, i) - 1])
    ensures i < |src.lines| && SitesOf(src.lines[i].stmt, PlaceAfter(src.lines, i)) != [] ==>
      !src.secs[CurAfter(src.lines, i) - 1].nobits
  {
    hide CurAfter, Fits, SitesOf, PlaceAfter, Final;
  }

  /** The line is in a section with contents. */
  ghost predicate OnFile(us: seq<Unit>, f: nat, i: nat, t: nat) { Kept(us, f, i, t) && t < BSS }

  /** The contents of such a section are the code of the assembler. */
  lemma FileSection(us: seq<Unit>, f: nat, i: nat, t: nat)
    requires ProgramOk(us) && OnFile(us, f, i, t)
    ensures var sec := CurAfter(Lines(us, f), i);
      Inputs(us)[InputOf(us, f, sec)].bytes == CodeOf(Final(Lines(us, f)), sec)
  {
    hide Final, Inputs, SecBase, CurAfter, UnitOk, Target, InputOf, CodeOf;
    LineSection(us, f, i);
    var d := us[f].src.secs[CurAfter(Lines(us, f), i) - 1];
    SameTarget(Inputs(us)[InputOf(us, f, CurAfter(Lines(us, f), i))], InSec(d.name, true, d.nobits, 4, []));
  }

  /** A section with contents lies inside the file part of the segment. */
  lemma SectionLoaded(ins: seq<InSec>, base: nat, rels: seq<Linker.Rel>, img: seq<Byte>, k: nat, t: nat)
    requires Linker.RelsOk(ins, rels) && Linker.IsSegment(ins, base, rels, img) && Mapped(ins, k, t) && t < BSS
    ensures var y := Linker.PlaceOf(ins, base, k, t); 0 <= y && y + |ins[k].bytes| <= |img|
  {
    hide Linker.RelsOk, Linker.IsSegment, Contents, Vaddr, OffsetOf, Target, Linker.FileSize, AlignOf;
    PlacedAt(ins, k, t);
    Linker.SegmentFits(ins, base, t);
    Linker.SegmentSize(ins, base, rels, img);
  }

  // ----- Bytes of a line -----

  /** A relocation that acts on a section of file f comes from a fixup of that file. */
  lemma RelSource(us: seq<Unit>, base: nat, rels: seq<Linker.Rel>, img: seq<Byte>, f: nat, sec: nat, q: nat)
    returns (k: nat)
    requires IsLinked(us, base, rels, img) && f < |us| && 1 <= sec <= |us[f].obj.secs|
    requires q < |rels| && rels[q].sec == SecBase(us, f) + sec - 1
    ensures rels[q].width == 4 && k < |Final(Lines(us, f)).relocs|
    ensures Final(Lines(us, f)).relocs[k].section == sec && Final(Lines(us, f)).relocs[k].offset == rels[q].offset
  {
    hide IsLinked, Final, Inputs, SecBase, Entries, EntriesOf, UnitOk, Grouped, Linker.RelOk, Linker.IsSegment,
         Reindexed,
         SectionOf, Linker.RelsOk;
    LinkedFacts(us, base, rels, img);
    var g, x := EntrySource(us, |us|, q);
    EntrySite(us, g, x);
    if g < f { BaseOrder(us, g, f); }
    if f < g { BaseOrder(us, f, g); }
    SectionsAre(us[f]);
    var fs := Final(Lines(us, f)).relocs;
    FinalRelocs(Lines(us, f));
    GroupedSpaced(us[f].reindex, fs, |us[f].src.secs|);
    assert FromTable(us[f].reindex, fs, |fs|, us[f].obj.rels[x]);
    k :| 0 <= k < |fs| && us[f].obj.rels[x] == ElfRelOf(us[f].reindex, fs[k]);
  }

  /** No relocation acts on a stretch of a line that the places of the line avoid. */
  ghost predicate Avoids(sites: seq<Site>, lo: nat, hi: nat) {
    forall x :: x in sites ==> x.offset + 4 <= lo || hi <= x.offset
  }

  lemma Untouched(us: seq<Unit>, base: nat, rels: seq<Linker.Rel>, img: seq<Byte>, f: nat, i: nat,
                  lo: nat, hi: nat, q: nat)
    requires IsLinked(us, base, rels, img) && f < |us| && i < |Lines(us, f)| && q < |rels|
    requires rels[q].sec == InputOf(us, f, CurAfter(Lines(us, f), i))
    requires var at := PlaceAfter(Lines(us, f), i); at <= lo <= hi <= at + SizeAt(Lines(us, f)[i].stmt, at)
    requires Avoids(SitesOf(Lines(us, f)[i].stmt, PlaceAfter(Lines(us, f), i)), lo, hi)
    ensures rels[q].offset + rels[q].width <= lo || hi <= rels[q].offset
  {
    hide IsLinked, Final, Inputs, SecBase, CurAfter, PlaceAfter, SizeAt, SitesOf, InputOf, FixupsOf, SectionOf, Fits;
    LinkedFacts(us, base, rels, img);
    LineSection(us, f, i);
    var sec := CurAfter(Lines(us, f), i);
    var k := RelSource(us, base, rels, img, f, sec, q);
    var names := Final(Lines(us, f)).table.names;
    FinalRelocs(Lines(us, f));
    NoFixupIn(names, Lines(us, f), k, i, lo, hi);
  }

  /** What a line emits is loaded unchanged where no symbol is filled in. */
  lemma StretchLoaded(us: seq<Unit>, base: nat, rels: seq<Linker.Rel>, img: seq<Byte>, f: nat, i: nat,
                      t: nat, lo: nat, hi: nat)
    requires IsLinked(us, base, rels, img) && OnFile(us, f, i, t) && i < |Lines(us, f)|
    requires var at := PlaceAfter(Lines(us, f), i); at <= lo <= hi <= at + SizeAt(Lines(us, f)[i].stmt, at)
    requires Avoids(SitesOf(Lines(us, f)[i].stmt, PlaceAfter(Lines(us, f), i)), lo, hi)
    ensures var y := SpotIn(us, base, f, i, t, lo); var code := CodeOf(Final(Lines(us, f)), CurAfter(Lines(us, f), i));
      hi <= |code| && 0 <= y && y + (hi - lo) <= |img| && img[y..y + (hi - lo)] == code[lo..hi]
  {
    hide IsLinked, Final, Inputs, SecBase, CurAfter, PlaceAfter, SizeAt, SitesOf, InputOf, CodeOf, Avoids, BytesOf, At,
         Linker.RelsOk, Linker.IsSegment, Linker.PlaceOf, Target;
    LinkedFacts(us, base, rels, img);
    LineEmitted(Lines(us, f), i);
    FileSection(us, f, i, t);
    var k := InputOf(us, f, CurAfter(Lines(us, f), i));
    var ins := Inputs(us);
    SectionLoaded(ins, base, rels, img, k, t);
    var code := ins[k].bytes;
    var p := Linker.PlaceOf(ins, base, k, t);
    forall j | lo <= j < hi ensures img[p + j] == code[j] {
      forall q | 0 <= q < |rels| && rels[q].sec == k ensures !(rels[q].offset <= j < rels[q].offset + rels[q].width) {
        Untouched(us, base, rels, img, f, i, lo, hi, q);
      }
      Linker.LoadedByte(ins, base, rels, img, k, t, j);
    }
    assert img[p + lo..p + hi] == code[lo..hi];
  }

  // ----- Places that symbols are filled into -----

  /** The relocation of a place, with the value of its name. */
  ghost predicate IsRelOf(us: seq<Unit>, base: nat, f: nat, i: nat, x: Site, r: Linker.Rel)
    requires ProgramOk(us) && f < |us| && i < |Lines(us, f)|
  {
    r == Linker.Rel(InputOf(us, f, CurAfter(Lines(us, f), i)), x.offset, 4, x.pcrel, NameValue(us, base, f, x.sym))
  }

  /** A place of a line has an entry in the relocations of its object, under the index of its name. */
  lemma SiteInObject(u: Unit, i: nat, k: nat) returns (x: nat)
    requires UnitOk(u) && i < |u.src.lines| && k < |SitesOf(u.src.lines[i].stmt, PlaceAfter(u.src.lines, i))|
    ensures var s := SitesOf(u.src.lines[i].stmt, PlaceAfter(u.src.lines, i))[k];
      && x < |u.obj.rels| && u.obj.rels[x].section == CurAfter(u.src.lines, i)
      && u.obj.rels[x].offset == s.offset && u.obj.rels[x].pcrel == s.pcrel
      && u.obj.rels[x].sym < |u.obj.symtab|
      && u.obj.symtab[u.obj.rels[x].sym] == ElfOf(s.sym, Look(LinkInput.Table(u), s.sym))
  {
    hide SourceOk, Final, FixupsOf, Grouped, SitesOf, PlaceAfter, CurAfter, CodeOf, ElfOf, Look, SectionOf, Fits;
    var lines := u.src.lines;
    var s := SitesOf(lines[i].stmt, PlaceAfter(lines, i))[k];
    var names := LinkInput.Table(u).names;
    var fs := Final(lines).relocs;
    SectionsAre(u);
    SourceFacts(u.src, i);
    FinalRelocs(lines);
    FixupListed(names, lines, |lines|, i, k);
    SiteNamed(lines, i, k);
    var fix := ToFixup(names, CurAfter(lines, i), s);
    var q :| 0 <= q < |fs| && fs[q] == fix;
    GroupedHas(u.reindex, fs, |u.src.secs|, q);
    x :| 0 <= x < |u.obj.rels| && u.obj.rels[x] == ElfRelOf(u.reindex, fix);
    assert u.obj.symtab[u.reindex[fix.sym]] == EntryOf(LinkInput.Table(u), fix.sym);
  }

  lemma SiteRelocated(us: seq<Unit>, base: nat, rels: seq<Linker.Rel>, img: seq<Byte>, f: nat, i: nat, k: nat)
    returns (q: nat)
    requires IsLinked(us, base, rels, img) && f < |us| && i < |Lines(us, f)|
    requires k < |SitesOf(Lines(us, f)[i].stmt, PlaceAfter(Lines(us, f), i))|
    ensures q < |rels|
    ensures IsRelOf(us, base, f, i, SitesOf(Lines(us, f)[i].stmt, PlaceAfter(Lines(us, f), i))[k], rels[q])
  {
    hide UnitOk, Final, Inputs, SecBase, CurAfter, PlaceAfter, SitesOf, Entries, Linker.RelsOk, Linker.IsSegment, Defs,
         Linker.RefValue, ElfOf, Look, RefOf, GlobalsOf;
    var x := SiteInObject(us[f], i, k);
    EntryListed(us, |us|, f, x);
    EntrySite(us, f, x);
    var e := EntriesOf(us, f)[x];
    q :| 0 <= q < |rels| && Entries(us, |us|)[q] == e;
    assert rels[q] == Linker.RelOf(Inputs(us), base, GlobalsOf(us, base), e);
  }

  /** A word that a symbol is filled into: what was assembled there plus the value of the name,
      less its own address if it is relative. */
  lemma SiteLoaded(us: seq<Unit>, base: nat, rels: seq<Linker.Rel>, img: seq<Byte>, f: nat, i: nat, t: nat, k: nat)
    requires IsLinked(us, base, rels, img) && Kept(us, f, i, t) && i < |Lines(us, f)|
    requires k < |SitesOf(Lines(us, f)[i].stmt, PlaceAfter(Lines(us, f), i))|
    ensures OnFile(us, f, i, t)
    ensures var s := SitesOf(Lines(us, f)[i].stmt, PlaceAfter(Lines(us, f), i))[k];
      var code := CodeOf(Final(Lines(us, f)), CurAfter(Lines(us, f), i));
      var y := SpotIn(us, base, f, i, t, s.offset);
      && s.offset + 4 <= |code| && 0 <= y && y + 4 <= |img|
      && Get32(img, y)
         == (NameValue(us, base, f, s.sym) + Get32(code, s.offset) - if s.pcrel then base + y else 0) % 0x1_0000_0000
  {
    hide IsLinked, Final, Inputs, SecBase, CurAfter, PlaceAfter, SitesOf, InputOf, CodeOf, NameValue, Get32, BytesOf,
         Linker.RelOk, Linker.IsSegment, Linker.PlaceOf, Target;
    LinkedFacts(us, base, rels, img);
    var s := SitesOf(Lines(us, f)[i].stmt, PlaceAfter(Lines(us, f), i))[k];
    var q := SiteRelocated(us, base, rels, img, f, i, k);
    Linker.RelFacts(Inputs(us), rels[q], t);
    FileSection(us, f, i, t);
    Linker.LoadedWord(Inputs(us), base, rels, img, t, q);
  }

  // ----- Operands -----

  /** A number as a signed word. */
  function Wrap32(v: int): int {
    var u := v % 0x1_0000_0000;
    if u < 0x8000_0000 then u else u - 0x1_0000_0000
  }

  lemma SignedIs(c: seq<Byte>, o: nat)
    requires o + 4 <= |c|
    ensures Signed32(c[o..o + 4]) == Wrap32(Get32(c, o))
  {
  }

  lemma DwordIs(c: seq<Byte>, o: nat, d: Int32)
    requires o + 4 <= |c| && c[o..o + 4] == Dword(d)
    ensures Get32(c, o) == d % 0x1_0000_0000
  {
    DwordRoundTrip(d);
    SignedIs(c, o);
    hide Dword, Signed32, Get32;
  }

  /** The sum of a relocation depends on the remainders only. */
  lemma WrapSum(a: int, b: int)
    ensures (a + b % 0x1_0000_0000) % 0x1_0000_0000 == (a + b) % 0x1_0000_0000
    ensures Wrap32((a + b) % 0x1_0000_0000) == Wrap32(a + b)
  {
  }

  /** Where part j of line i is in the segment. */
  ghost function PartAt(us: seq<Unit>, base: nat, f: nat, i: nat, t: nat, j: nat): int
    requires Kept(us, f, i, t) && i < |Lines(us, f)| && Lines(us, f)[i].stmt.Emit? && j <= |Lines(us, f)[i].stmt.parts|
  {
    LineAt(us, base, f, i, t) + PartOffset(Lines(us, f)[i].stmt.parts, j)
  }

  ghost predicate IsPart(us: seq<Unit>, f: nat, i: nat, j: nat, p: Part) {
    && f < |us| && i < |Lines(us, f)| && Lines(us, f)[i].stmt.Emit? && j < |Lines(us, f)[i].stmt.parts|
    && Lines(us, f)[i].stmt.parts[j] == p
  }

  /** The bytes of part j in the code of the section. */
  lemma PartInCode(lines: seq<Line>, i: nat, j: nat)
    requires i < |lines| && lines[i].stmt.Emit? && j < |lines[i].stmt.parts|
    ensures var code := CodeOf(Final(lines), CurAfter(lines, i));
      var o := PlaceAfter(lines, i) + PartOffset(lines[i].stmt.parts, j); var b := PartBytes(lines[i].stmt.parts[j]);
      && o + |b| <= |code| && code[o..o + |b|] == b
      && o + |b| <= PlaceAfter(lines, i) + SizeAt(lines[i].stmt, PlaceAfter(lines, i))
  {
    hide Final, CodeOf, CurAfter, PlaceAfter, PartOffset, PartBytes, At, PartsBytes;
    LineEmitted(lines, i);
    PartPlaced(lines[i].stmt.parts, j);
    var all := PartsBytes(lines[i].stmt.parts);
    var code := CodeOf(Final(lines), CurAfter(lines, i));
    Linker.SubSlice(code, PlaceAfter(lines, i), |all|, PartOffset(lines[i].stmt.parts, j),
                    |PartBytes(lines[i].stmt.parts[j])|);
  }

  /** The only places in part j are its own. */
  lemma PartAvoids(parts: seq<Part>, at: nat, j: nat, lo: nat, hi: nat)
    requires j < |parts|
    requires var o := at + PartOffset(parts, j); o <= lo <= hi <= o + |PartBytes(parts[j])|
    requires Avoids(PartSites(parts[j], at + PartOffset(parts, j)), lo, hi)
    ensures Avoids(PartsSites(parts, at), lo, hi)
  {
    hide PartBytes, PartSites, PartOffset, PartsSites;
    forall s | s in PartsSites(parts, at) ensures s.offset + 4 <= lo || hi <= s.offset {
      var k :| 0 <= k < |PartsSites(parts, at)| && PartsSites(parts, at)[k] == s;
      var m := SiteOwner(parts, at, k);
      PartSitesInside(parts[m], at + PartOffset(parts, m));
      if m < j { PartsOrder(parts, m, j); }
      if j < m { PartsOrder(parts, j, m); }
    }
  }

  /** Bytes of a part that no symbol is filled into. */
  lemma PartLoaded(us: seq<Unit>, base: nat, rels: seq<Linker.Rel>, img: seq<Byte>, f: nat, i: nat, t: nat, j: nat,
                   p: Part, lo: nat, hi: nat)
    requires IsLinked(us, base, rels, img) && OnFile(us, f, i, t) && IsPart(us, f, i, j, p)
    requires lo <= hi <= |PartBytes(p)| && Avoids(PartSites(p, 0), lo, hi)
    ensures var y := PartAt(us, base, f, i, t, j) + lo;
      0 <= y && y + (hi - lo) <= |img| && img[y..y + (hi - lo)] == PartBytes(p)[lo..hi]
  {
    hide IsLinked, Final, CurAfter, PlaceAfter, CodeOf, Kept, PartBytes, PartOffset, PartsSites, Linker.PlaceOf,
         InputOf, Inputs;
    var lines := Lines(us, f);
    var o := PlaceAfter(lines, i) + PartOffset(lines[i].stmt.parts, j);
    PartInCode(lines, i, j);
    ShiftAvoids(p, o, lo, hi);
    PartAvoids(lines[i].stmt.parts, PlaceAfter(lines, i), j, o + lo, o + hi);
    StretchLoaded(us, base, rels, img, f, i, t, o + lo, o + hi);
    Linker.SubSlice(CodeOf(Final(lines), CurAfter(lines, i)), o, |PartBytes(p)|, lo, hi - lo);
  }

  lemma ShiftAvoids(p: Part, o: nat, lo: nat, hi: nat)
    requires Avoids(PartSites(p, 0), lo, hi)
    ensures Avoids(PartSites(p, o), o + lo, o + hi)
  {
    forall s | s in PartSites(p, o) ensures s.offset + 4 <= o + lo || o + hi <= s.offset {
      assert s.(offset := s.offset - o) in PartSites(p, 0);
    }
  }

  /** The place of part j that a symbol is filled into. */
  lemma PartWord(us: seq<Unit>, base: nat, rels: seq<Linker.Rel>, img: seq<Byte>, f: nat, i: nat, t: nat, j: nat,
                 p: Part,
                 s: Site, d: Int32)
    requires IsLinked(us, base, rels, img) && Kept(us, f, i, t) && IsPart(us, f, i, j, p)
    requires PartSites(p, 0) == [s] && s.offset + 4 <= |PartBytes(p)|
    requires PartBytes(p)[s.offset..s.offset + 4] == Dword(d)
    ensures OnFile(us, f, i, t)
    ensures var y := PartAt(us, base, f, i, t, j) + s.offset;
      && 0 <= y && y + 4 <= |img|
      && Get32(img, y)
         == (NameValue(us, base, f, s.sym) + d - if s.pcrel then base + y else 0) % 0x1_0000_0000
  {
    hide IsLinked, Final, CurAfter, PlaceAfter, CodeOf, Kept, PartBytes, PartOffset, PartsSites, Linker.PlaceOf,
         InputOf,
         Inputs, NameValue, Get32, Dword, PartSites, ProgramOk, Linker.RelsOk, Linker.IsSegment, Entries, BytesOf;
    var lines := Lines(us, f);
    var parts := lines[i].stmt.parts;
    var o := PlaceAfter(lines, i) + PartOffset(parts, j);
    ShiftSite(p, o, s);
    OwnedSite(parts, PlaceAfter(lines, i), j);
    var x := s.(offset := o + s.offset);
    assert parts[j] == p && x in PartSites(p, o);
    assert x in PartsSites(parts, PlaceAfter(lines, i));
    LinkedFacts(us, base, rels, img);
    var k :| 0 <= k < |PartsSites(parts, PlaceAfter(lines, i))| && PartsSites(parts, PlaceAfter(lines, i))[k] == x;
    SiteLoaded(us, base, rels, img, f, i, t, k);
    PartInCode(lines, i, j);
    var code := CodeOf(Final(lines), CurAfter(lines, i));
    Linker.SubSlice(code, o, |PartBytes(p)|, s.offset, 4);
    DwordIs(code, o + s.offset, d);
    var y := PartAt(us, base, f, i, t, j) + s.offset;
    WrapSum(NameValue(us, base, f, s.sym) - if s.pcrel then base + y else 0, d);
  }

  lemma ShiftSite(p: Part, o: nat, s: Site)
    requires PartSites(p, 0) == [s]
    ensures PartSites(p, o) == [s.(offset := o + s.offset)]
  {
  }

  /** The displacement of a loaded operand: what was written, plus the value of the symbol. */
  ghost function LoadedDisp(us: seq<Unit>, base: nat, f: nat, op: Operand): int
    requires ProgramOk(us) && f < |us| && op.Memory?
  {
    if op.sym.None? then op.disp else Wrap32(op.disp + NameValue(us, base, f, op.sym.value))
  }

  /** What the processor finds: the operand as written, with its symbol resolved. */
  ghost function LoadedForm(us: seq<Unit>, base: nat, f: nat, op: Operand): Form
    requires ProgramOk(us) && f < |us|
  {
    if op.Register? then Direct(op.num)
    else Address(op.base, Meaning(op).index, LoadedDisp(us, base, f, op), None)
  }

  /** Decoding the loaded image at the place of an operand gives its register field and its
      meaning, with the symbol's value in the displacement, and takes exactly its bytes. */
  lemma LoadedOperand(us: seq<Unit>, base: nat, rels: seq<Linker.Rel>, img: seq<Byte>, f: nat, i: nat, t: nat, j: nat,
                      reg: Reg, op: Operand)
    requires IsLinked(us, base, rels, img) && OnFile(us, f, i, t) && IsPart(us, f, i, j, RegMem(reg, op))
    ensures var y := PartAt(us, base, f, i, t, j);
      && 0 <= y && y + |Encode(reg, op)| <= |img|
      && Decode(img, [], y) == Some(Decoded(reg, LoadedForm(us, base, f, op), |Encode(reg, op)|))
  {
    hide IsLinked, PartAt, Kept, Head, Disp, NameValue, Decode, Meaning, Signed8, Signed32, Dword, ByteOf, Wrap32;
    var y := PartAt(us, base, f, i, t, j);
    var h := |Head(reg, op)|;
    SitesOfOperand(reg, op);
    assert Encode(reg, op)[..h] == Head(reg, op);
    PartLoaded(us, base, rels, img, f, i, t, j, RegMem(reg, op), 0, h);
    assert img[y..y + h] == Head(reg, op);
    if op.Register? {
      PlainRegister(img, y, reg, op);
    } else {
      HeadDecoded(img, [], y, reg, op);
      DispLoaded(us, base, rels, img, f, i, t, j, reg, op);
    }
  }

  lemma SitesOfOperand(reg: Reg, op: Operand)
    ensures PartSites(RegMem(reg, op), 0) ==
      if op.Memory? && op.sym.Some? then [Site(|Head(reg, op)|, op.sym.value, false)] else []
    ensures Avoids(PartSites(RegMem(reg, op), 0), 0, |Head(reg, op)|)
    ensures PartBytes(RegMem(reg, op))[..|Head(reg, op)|] == Head(reg, op)
    ensures op.Memory? ==>
      var h, w := |Head(reg, op)|, |Disp(op)|;
      h + w == |PartBytes(RegMem(reg, op))| && PartBytes(RegMem(reg, op))[h..h + w] == Disp(op)
    ensures op.Memory? && op.sym.Some? ==> Disp(op) == Dword(op.disp)
  {
    hide Head, Dword;
  }

  lemma PlainRegister(img: seq<Byte>, y: nat, reg: Reg, op: Operand)
    requires op.Register? && y + |Head(reg, op)| <= |img| && img[y..y + |Head(reg, op)|] == Head(reg, op)
    ensures Decode(img, [], y) == Some(Decoded(reg, Direct(op.num), |Head(reg, op)|))
  {
    assert img[y] == img[y..y + 1][0];
    FieldsOf(3, reg, op.num);
  }

  lemma DispLoaded(us: seq<Unit>, base: nat, rels: seq<Linker.Rel>, img: seq<Byte>, f: nat, i: nat, t: nat, j: nat,
                   reg: Reg, op: Operand)
    requires IsLinked(us, base, rels, img) && OnFile(us, f, i, t) && IsPart(us, f, i, j, RegMem(reg, op)) && op.Memory?
    requires |Disp(op)| in {0, 1, 4}
    ensures var y := PartAt(us, base, f, i, t, j) + |Head(reg, op)|;
      && 0 <= y && y + |Disp(op)| <= |img|
      && DispAt(img, [], y, |Disp(op)|) == Some((LoadedDisp(us, base, f, op), None))
  {
    hide IsLinked, ProgramOk, PartAt, Kept, Head, Disp, NameValue, LoadedDisp, DispAt, PartBytes, PartSites, Dword,
         Get32,
         Linker.RelsOk, Linker.IsSegment;
    var h, w := |Head(reg, op)|, |Disp(op)|;
    var y := PartAt(us, base, f, i, t, j) + h;
    var p := RegMem(reg, op);
    LinkedFacts(us, base, rels, img);
    SitesOfOperand(reg, op);
    DispIs(us, base, f, op);
    if op.sym.None? {
      PartLoaded(us, base, rels, img, f, i, t, j, p, h, h + w);
      DispDecoded(img, [], y, op);
    } else {
      PartWord(us, base, rels, img, f, i, t, j, p, Site(h, op.sym.value, false), op.disp);
      WordDecoded(img, y, op.disp, NameValue(us, base, f, op.sym.value));
    }
  }

  /** A displacement of four bytes that a value was added to. */
  lemma WordDecoded(img: seq<Byte>, y: nat, d: Int32, v: nat)
    requires y + 4 <= |img| && Get32(img, y) == (v + d) % 0x1_0000_0000
    ensures DispAt(img, [], y, 4) == Some((Wrap32(d + v), None))
  {
    hide Get32, Signed32, Wrap32;
    SignedIs(img, y);
    WrapSum(v, d);
  }

  lemma DispIs(us: seq<Unit>, base: nat, f: nat, op: Operand)
    requires ProgramOk(us) && f < |us| && op.Memory?
    ensures LoadedDisp(us, base, f, op) ==
      if op.sym.None? then op.disp else Wrap32(op.disp + NameValue(us, base, f, op.sym.value))
  {
    hide NameValue;
  }

  /** A data word or an immediate: what was written, plus the value of its symbol. */
  lemma LoadedField(us: seq<Unit>, base: nat, rels: seq<Linker.Rel>, img: seq<Byte>, f: nat, i: nat, t: nat, j: nat,
                    d: Int32, sym: Option<string>, pcrel: bool)
    requires IsLinked(us, base, rels, img) && OnFile(us, f, i, t) && IsPart(us, f, i, j, Field(d, sym, pcrel))
    ensures var y := PartAt(us, base, f, i, t, j);
      && 0 <= y && y + 4 <= |img|
      && Get32(img, y) == (if sym.None? then d
                           else d + NameValue(us, base, f, sym.value) - if pcrel then base + y else 0) % 0x1_0000_0000
  {
    hide IsLinked, PartAt, Kept, NameValue, Dword, Get32;
    var p := Field(d, sym, pcrel);
    assert PartBytes(p)[0..4] == Dword(d);
    if sym.None? {
      PartLoaded(us, base, rels, img, f, i, t, j, p, 0, 4);
      DwordIs(img, PartAt(us, base, f, i, t, j), d);
    } else {
      PartWord(us, base, rels, img, f, i, t, j, p, Site(0, sym.value, pcrel), d);
    }
  }

  // ----- What names stand for -----

  /** The file offers the name to others. */
  ghost predicate Exports(u: Unit, name: string) {
    var x := Look(LinkInput.Table(u), name); x.home != Nowhere && x.global
  }

  /** File g has the definition that the name means in file f: its own if it is local, else the
      last one that any file offers. */
  ghost predicate Binds(us: seq<Unit>, f: nat, name: string, g: nat) {
    && f < |us| && g < |us|
    && var x := Look(LinkInput.Table(us[f]), name);
       if x.home != Nowhere && !x.global then g == f
       else
         && name != Linker.KERNEL_END && Exports(us[g], name)
         && forall h :: g < h < |us| ==> !Exports(us[h], name)
  }

  lemma WinsBehind<V>(a: seq<Linker.Def<V>>, b: seq<Linker.Def<V>>, w: nat, name: string)
    requires Linker.Wins(b, w, name) && b[w].strong
    ensures Linker.Wins(a + b, |a| + w, name)
  {
    forall j: nat | |a| + w < j && Linker.Defines(a + b, j, name) ensures !(a + b)[j].strong {
      assert Linker.Defines(b, j - |a|, name);
    }
  }

  lemma WinsBefore<V>(a: seq<Linker.Def<V>>, b: seq<Linker.Def<V>>, w: nat, name: string)
    requires Linker.Wins(a, w, name) && forall j: nat :: !Linker.Defines(b, j, name)
    ensures Linker.Wins(a + b, w, name) && (a + b)[w] == a[w]
  {
    forall j: nat ensures Linker.Defines(a + b, j, name) <==> Linker.Defines(a, j, name) {
      if j >= |a| { assert !Linker.Defines(b, j - |a|, name); }
    }
  }

  /** A symbol table entry that stands for a definition. */
  predicate Offers(e: Elf) { e.home == Shared || (e.global && e.home != Nowhere) }

  ghost predicate DefFits(e: Elf, base: nat, d: Linker.Definition) {
    d.strong && Offers(e) && (e.home != Shared ==> d.value == SymbolOf(e, base))
  }

  /** The definitions of a name in a symbol table all come from its entry. */
  lemma {:induction false} DefsFrom(symtab: seq<Elf>, n: nat, base: nat, com: nat, e: Elf)
    requires n <= |symtab| && forall j :: 0 <= j < n && symtab[j].name == e.name && Offers(symtab[j]) ==> symtab[j] == e
    ensures forall i: nat :: Linker.Defines(DefsIn(symtab, n, base, com), i, e.name) ==>
      DefFits(e, base, DefsIn(symtab, n, base, com)[i])
  {
    hide SymbolOf;
    if n > 0 {
      DefsFrom(symtab, n - 1, base, com, e);
      var ds := DefsIn(symtab, n - 1, base, com);
      forall i: nat | Linker.Defines(DefsIn(symtab, n, base, com), i, e.name)
        ensures DefFits(e, base, DefsIn(symtab, n, base, com)[i])
      {
        if i < |ds| { assert Linker.Defines(ds, i, e.name); }
      }
    }
  }

  /** An entry that stands for a definition gives one. */
  lemma {:induction false} DefsHave(symtab: seq<Elf>, n: nat, base: nat, com: nat, j: nat) returns (i: nat)
    requires j < n <= |symtab| && Offers(symtab[j])
    ensures Linker.Defines(DefsIn(symtab, n, base, com), i, symtab[j].name)
  {
    if j < n - 1 {
      i := DefsHave(symtab, n - 1, base, com, j);
    } else {
      i := |DefsIn(symtab, n - 1, base, com)|;
    }
  }

  /** The entries of a name in the symbol table of a file. */
  lemma NameEntry(u: Unit, name: string, j: nat)
    requires UnitOk(u) && j < |u.obj.symtab| && u.obj.symtab[j].name == name && Offers(u.obj.symtab[j])
    ensures u.obj.symtab[j] == ElfOf(name, Look(LinkInput.Table(u), name)) && Exports(u, name)
  {
    hide SourceOk, SectionOf, Grouped, LinkInput.Table, Look;
    SectionsAre(u);
    UnitHomes(u);
    if j > 0 {
      var i := EntryFrom(LinkInput.Table(u), u.obj.symtab, u.reindex, j);
    }
  }

  lemma NameListed(u: Unit, name: string) returns (j: nat)
    requires UnitOk(u) && Exports(u, name)
    ensures j < |u.obj.symtab| && u.obj.symtab[j] == ElfOf(name, Look(LinkInput.Table(u), name))
  {
    hide SourceOk, SectionOf, Grouped, Final, IsObject;
    SectionsAre(u);
    FinalTable(u.src.lines);
    var t := LinkInput.Table(u);
    var i :| 0 <= i < |t.names| && t.names[i] == name;
    j := u.reindex[i];
    assert u.obj.symtab[j] == EntryOf(t, i);
  }

  /** A file defines a name for others exactly if it exports it. */
  lemma UnitDefines(us: seq<Unit>, f: nat, name: string)
    requires ProgramOk(us) && f < |us|
    ensures (exists i: nat :: Linker.Defines(DefsOf(us, f), i, name)) <==> Exports(us[f], name)
    ensures forall i: nat :: Linker.Defines(DefsOf(us, f), i, name) ==>
      DefFits(ElfOf(name, Look(LinkInput.Table(us[f]), name)), SecBase(us, f), DefsOf(us, f)[i])
  {
    hide UnitOk, DefsIn, SecBase, Sections, Commons, LinkInput.Table, Look, Linker.Defines, SymbolOf;
    var symtab := us[f].obj.symtab;
    var e := ElfOf(name, Look(LinkInput.Table(us[f]), name));
    var com := |Sections(us)| + |Commons(us[..f])|;
    assert e.name == name;
    SymHome(us[f], name);
    forall j | 0 <= j < |symtab| && symtab[j].name == name && Offers(symtab[j]) ensures symtab[j] == e {
      NameEntry(us[f], name, j);
    }
    DefsFrom(symtab, |symtab|, SecBase(us, f), com, e);
    if Exports(us[f], name) {
      var j := NameListed(us[f], name);
      assert Offers(symtab[j]);
      var i := DefsHave(symtab, |symtab|, SecBase(us, f), com, j);
      assert Linker.Defines(DefsOf(us, f), i, name);
    }
  }

  /** The last file that exports a name has the definition that counts. */
  lemma {:induction false} LastExport(us: seq<Unit>, n: nat, g: nat, name: string) returns (w: nat)
    requires ProgramOk(us) && g < n <= |us| && Exports(us[g], name) && forall h :: g < h < n ==> !Exports(us[h], name)
    ensures Linker.Wins(Defs(us, n), w, name)
    ensures DefFits(ElfOf(name, Look(LinkInput.Table(us[g]), name)), SecBase(us, g), Defs(us, n)[w])
    ensures exists i: nat :: Linker.Defines(DefsOf(us, g), i, name) && DefsOf(us, g)[i] == Defs(us, n)[w]
  {
    hide ProgramOk, DefsOf, SecBase, LinkInput.Table, Look, ElfOf, DefFits, Exports, Linker.Wins;
    UnitDefines(us, n - 1, name);
    if g < n - 1 {
      w := LastExport(us, n - 1, g, name);
      WinsBefore(Defs(us, n - 1), DefsOf(us, n - 1), w, name);
    } else {
      var i: nat :| Linker.Defines(DefsOf(us, g), i, name);
      w := Linker.SomeWinner(DefsOf(us, g), name, i);
      WinnerStrong(DefsOf(us, g), w, name, ElfOf(name, Look(LinkInput.Table(us[g]), name)), SecBase(us, g));
      WinsBehind(Defs(us, g), DefsOf(us, g), w, name);
      assert Linker.Defines(DefsOf(us, g), w, name);
      w := |Defs(us, g)| + w;
    }
  }

  lemma WinnerStrong(ds: seq<Linker.Definition>, w: nat, name: string, e: Elf, base: nat)
    requires Linker.Wins(ds, w, name)
    requires forall i: nat :: Linker.Defines(ds, i, name) ==> DefFits(e, base, ds[i])
    ensures Linker.Defines(ds, w, name) && ds[w].strong && DefFits(e, base, ds[w])
  {
    hide SymbolOf;
    assert Linker.Defines(ds, w, name);
  }

  /** The symbol that a name has in a file. */
  function SymbolIn(us: seq<Unit>, g: nat, name: string): Linker.Symbol
    requires g < |us|
  {
    SymbolOf(ElfOf(name, Look(LinkInput.Table(us[g]), name)), SecBase(us, g))
  }

  lemma SymbolInOk(us: seq<Unit>, g: nat, name: string)
    requires ProgramOk(us) && g < |us|
    ensures Linker.SymbolOk(Inputs(us), SymbolIn(us, g, name))
  {
    hide UnitOk, Inputs, SecBase, LinkInput.Table;
    SymHome(us[g], name);
    SectionsAre(us[g]);
    InputSize(us, g);
  }

  lemma LastMeans(us: seq<Unit>, base: nat, g: nat, name: string)
    requires ProgramOk(us) && name != Linker.KERNEL_END && g < |us| && Exports(us[g], name)
    requires Look(LinkInput.Table(us[g]), name).home != Shared && forall h :: g < h < |us| ==> !Exports(us[h], name)
    ensures Linker.Means(Linker.WithEnd(Inputs(us), base, Defs(us, |us|)), Linker.Named(name), SymbolIn(us, g, name))
  {
    hide ProgramOk, Inputs, SecBase, LinkInput.Table, Look, SymbolOf, Defs, Linker.KernelEnd;
    var ds := Defs(us, |us|);
    var w := LastExport(us, |us|, g, name);
    Linker.OthersCount(Inputs(us), base, ds, w, name);
    assert Linker.WithEnd(Inputs(us), base, ds)[w] == ds[w];
  }

  /** What a name means: the symbol of the file that binds it. */
  lemma BoundValue(us: seq<Unit>, base: nat, f: nat, name: string, g: nat)
    requires ProgramOk(us) && Binds(us, f, name, g)
    requires Look(LinkInput.Table(us[g]), name).home != Shared
    ensures Linker.SymbolOk(Inputs(us), SymbolIn(us, g, name))
    ensures NameValue(us, base, f, name) == Linker.SymbolAddress(Inputs(us), base, SymbolIn(us, g, name))
  {
    hide ProgramOk, Inputs, SecBase, LinkInput.Table, Look, Linker.SymbolAddress, SymbolOf, Defs, Linker.Resolve,
         Linker.Addressed, Linker.Means, Linker.WithEnd;
    var ds := Defs(us, |us|);
    var ins := Inputs(us);
    DefsOk(us, |us|);
    Linker.EndOk(ins, base, ds);
    RefToOk(us, f, name);
    SymbolInOk(us, g, name);
    if RefTo(us, f, name).Named? {
      LastMeans(us, base, g, name);
      Linker.MeaningAddress(ins, base, Linker.WithEnd(ins, base, ds), RefTo(us, f, name), SymbolIn(us, g, name));
    }
  }

  /** A name that was given a number by .set means that number. */
  lemma SetValue(us: seq<Unit>, base: nat, f: nat, name: string, g: nat, m: nat, v: nat)
    requires ProgramOk(us) && Binds(us, f, name, g)
    requires SymbolLaws.DefinedLast(Lines(us, g), name, m) && Lines(us, g)[m].stmt == Equate(name, v)
    ensures NameValue(us, base, f, name) == v
  {
    hide ProgramOk, Inputs, SecBase, LinkInput.Table, Look, NameValue, SymbolLaws.DefinedLast, Exports, Final;
    SymbolLaws.SetNumber(Lines(us, g), name, m, v);
    TableIs(us[g]);
    BoundValue(us, base, f, name, g);
  }

  // ----- Common storage -----

  /** The definition of a common symbol points to a section of its own. */
  lemma {:induction false} CommonDef(symtab: seq<Elf>, n: nat, base: nat, com: nat, e: Elf, i: nat) returns (q: nat)
    requires n <= |symtab| && e.home == Shared
    requires forall j :: 0 <= j < n && symtab[j].name == e.name && Offers(symtab[j]) ==> symtab[j] == e
    requires Linker.Defines(DefsIn(symtab, n, base, com), i, e.name)
    ensures q < |CommonsIn(symtab, n)| && CommonsIn(symtab, n)[q] == CommonSec(e)
    ensures DefsIn(symtab, n, base, com)[i].value == Linker.Placed(com + q, 0)
  {
    hide SymbolOf, CommonSec;
    var ds := DefsIn(symtab, n - 1, base, com);
    if i < |ds| {
      assert Linker.Defines(ds, i, e.name);
      q := CommonDef(symtab, n - 1, base, com, e, i);
    } else {
      q := |CommonsIn(symtab, n - 1)|;
    }
  }

  /** The common sections of file f, among all inputs. */
  lemma {:induction false} CommonsAt(us: seq<Unit>, f: nat, q: nat)
    requires f < |us| && q < |CommonsIn(us[f].obj.symtab, |us[f].obj.symtab|)|
    ensures |Commons(us[..f])| + q < |Commons(us)|
    ensures Commons(us)[|Commons(us[..f])| + q] == CommonsIn(us[f].obj.symtab, |us[f].obj.symtab|)[q]
  {
    hide CommonsIn;
    var n := |us| - 1;
    if f < n {
      CommonsAt(us[..n], f, q);
      assert us[..n][..f] == us[..f];
    }
  }

  /** A common symbol means the address of a piece of .bss of its own, with its size and alignment. */
  lemma CommonValue(us: seq<Unit>, base: nat, f: nat, name: string, g: nat) returns (k: nat)
    requires ProgramOk(us) && Binds(us, f, name, g)
    requires var x := Look(LinkInput.Table(us[g]), name); x.home == Shared && x.global
    ensures var x := Look(LinkInput.Table(us[g]), name);
      k < |Inputs(us)| && Inputs(us)[k] == InSec(".bss", true, true, x.value, Zeros(x.size))
    ensures Mapped(Inputs(us), k, BSS) && NameValue(us, base, f, name) == AddressOf(Inputs(us), base, k, BSS)
  {
    hide ProgramOk, SecBase, LinkInput.Table, Look, Defs, AddressOf, Linker.Resolve, Linker.Addressed, Linker.Means,
         Linker.WithEnd, DefsOf, Inputs;
    var ds, ins := Defs(us, |us|), Inputs(us);
    var w := LastExport(us, |us|, g, name);
    var i: nat :| Linker.Defines(DefsOf(us, g), i, name) && DefsOf(us, g)[i] == ds[w];
    k := CommonInput(us, g, name, i);
    DefsOk(us, |us|);
    Linker.EndOk(ins, base, ds);
    RefToOk(us, f, name);
    CommonMeans(us, base, name, w, k);
    assert RefTo(us, f, name) == Linker.Named(name);
    Linker.MeaningAddress(ins, base, Linker.WithEnd(ins, base, ds), Linker.Named(name), Linker.Placed(k, 0));
    BssMapped(ins, k);
  }

  lemma CommonMeans(us: seq<Unit>, base: nat, name: string, w: nat, k: nat)
    requires Linker.Wins(Defs(us, |us|), w, name) && name != Linker.KERNEL_END
    requires Defs(us, |us|)[w].value == Linker.Placed(k, 0)
    ensures Linker.Means(Linker.WithEnd(Inputs(us), base, Defs(us, |us|)), Linker.Named(name), Linker.Placed(k, 0))
  {
    hide Inputs, Defs, Linker.KernelEnd;
    Linker.OthersCount(Inputs(us), base, Defs(us, |us|), w, name);
    assert Linker.WithEnd(Inputs(us), base, Defs(us, |us|))[w] == Defs(us, |us|)[w];
  }

  lemma CommonInput(us: seq<Unit>, g: nat, name: string, i: nat) returns (k: nat)
    requires ProgramOk(us) && g < |us| && Look(LinkInput.Table(us[g]), name).home == Shared
    requires Linker.Defines(DefsOf(us, g), i, name)
    ensures k < |Inputs(us)| && Inputs(us)[k] == CommonSec(ElfOf(name, Look(LinkInput.Table(us[g]), name)))
    ensures DefsOf(us, g)[i].value == Linker.Placed(k, 0)
  {
    hide UnitOk, SecBase, Sections, Commons, LinkInput.Table, Look, CommonSec, DefsIn, CommonsIn, Exports;
    var symtab := us[g].obj.symtab;
    var e := ElfOf(name, Look(LinkInput.Table(us[g]), name));
    forall j | 0 <= j < |symtab| && symtab[j].name == name && Offers(symtab[j]) ensures symtab[j] == e {
      NameEntry(us[g], name, j);
    }
    var com := |Sections(us)| + |Commons(us[..g])|;
    var q := CommonDef(symtab, |symtab|, SecBase(us, g), com, e, i);
    CommonsAt(us, g, q);
    k := com + q;
  }

  lemma BssMapped(ins: seq<InSec>, k: nat)
    requires k < |ins| && ins[k].name == ".bss" && ins[k].alloc
    ensures Mapped(ins, k, BSS) && Target(ins[k]) == Some(BSS)
  {
    TargetExactly(ins[k], BSS);
  }

  /** A label means the address at which its line is loaded. */
  lemma LabelValue(us: seq<Unit>, base: nat, f: nat, name: string, g: nat, m: nat, u: nat)
    requires ProgramOk(us) && Binds(us, f, name, g) && LabelledLast(Lines(us, g), name, m) && Kept(us, g, m, u)
    ensures NameValue(us, base, f, name) == base + LineAt(us, base, g, m, u)
  {
    hide ProgramOk, Inputs, SecBase, LinkInput.Table, Look, NameValue, LabelledLast, CurAfter, PlaceAfter, Target,
         Exports, SectionOf, Fits, Final, AddressOf;
    SymbolPlace(Lines(us, g), name, m);
    TableIs(us[g]);
    BoundValue(us, base, f, name, g);
    LineSection(us, g, m);
  }

  lemma TableIs(u: Unit)
    ensures LinkInput.Table(u) == Final(u.src.lines).table
  {
    hide Final;
  }

  /** A call or jump lands on the line that has the label it names, in whatever file that is. */
  lemma CallLands(us: seq<Unit>, base: nat, rels: seq<Linker.Rel>, img: seq<Byte>, f: nat, i: nat, t: nat, j: nat,
                  name: string, g: nat, m: nat, u: nat)
    requires IsLinked(us, base, rels, img) && OnFile(us, f, i, t) && IsPart(us, f, i, j, Field(-4, Some(name), true))
    requires Binds(us, f, name, g) && LabelledLast(Lines(us, g), name, m) && Kept(us, g, m, u)
    ensures var y := PartAt(us, base, f, i, t, j);
      && 0 <= y && y + 4 <= |img|
      && (base + y + 4 + Get32(img, y)) % 0x1_0000_0000 == (base + LineAt(us, base, g, m, u)) % 0x1_0000_0000
  {
    hide IsLinked, ProgramOk, PartAt, Kept, NameValue, Get32, LabelledLast, LineAt, Exports, Look, LinkInput.Table,
         Linker.RelsOk, Linker.IsSegment;
    LinkedFacts(us, base, rels, img);
    LoadedField(us, base, rels, img, f, i, t, j, -4, Some(name), true);
    LabelValue(us, base, f, name, g, m, u);
    var y := PartAt(us, base, f, i, t, j);
    WrapSum(base + y + 4, -4 + NameValue(us, base, f, name) - (base + y));
  }

  /** A name that no file defines for itself means the end of the kernel if it is the linker's. */
  lemma KernelEndValue(us: seq<Unit>, base: nat, f: nat)
    requires ProgramOk(us) && f < |us|
    requires var x := Look(LinkInput.Table(us[f]), Linker.KERNEL_END); x.home == Nowhere || x.global
    ensures NameValue(us, base, f, Linker.KERNEL_END) == Linker.KernelEnd(Inputs(us), base)
  {
    hide ProgramOk, Inputs, SecBase, LinkInput.Table, Look, Linker.KernelEnd, SymbolOf, Defs, Linker.Resolve,
         Linker.Addressed;
    var ds := Defs(us, |us|);
    var ins := Inputs(us);
    DefsOk(us, |us|);
    Linker.EndOk(ins, base, ds);
    Linker.EndCounts(ins, base, ds);
    RefToOk(us, f, Linker.KERNEL_END);
    Linker.MeaningAddress(ins, base, Linker.WithEnd(ins, base, ds), RefTo(us, f, Linker.KERNEL_END),
                          Linker.Absolute(Linker.KernelEnd(ins, base)));
  }

  // ----- Numeric jumps -----

  /** A loaded numeric jump leads to the loaded line that it means if and only if a signed byte
      reaches it; without such a line it leads behind itself. */
  lemma JumpLoaded(us: seq<Unit>, base: nat, rels: seq<Linker.Rel>, img: seq<Byte>, f: nat, i: nat, t: nat,
                   code: Byte, dest: string, back: bool, m: nat)
    requires IsLinked(us, base, rels, img) && OnFile(us, f, i, t) && i < |Lines(us, f)|
    requires Lines(us, f)[i].stmt == ShortJump(code, dest, back)
    ensures var y := LineAt(us, base, f, i, t);
      && 0 <= y && y + 2 <= |img| && img[y] == code
      && (Means(Lines(us, f), i, dest, back, m) ==>
            && OnFile(us, f, m, t)
            && var z := LineAt(us, base, f, m, t);
               JumpTarget(base + y, img[y + 1]) == base + z <==> InReach(y, z))
      && ((forall j: nat :: !Candidate(Lines(us, f), i, dest, back, j)) ==>
            JumpTarget(base + y, img[y + 1]) == base + y + 2)
  {
    hide IsLinked, Inputs, InputOf, CurAfter, PlaceAfter, Linker.PlaceOf, At, Final, CodeOf, Target, JumpByte;
    var lines := Lines(us, f);
    var at := PlaceAfter(lines, i);
    var y := LineAt(us, base, f, i, t);
    JumpLands(lines, i, code, dest, back, m);
    LineEmitted(lines, i);
    StretchLoaded(us, base, rels, img, f, i, t, at, at + 2);
    var b := [code, JumpByte(At(lines, i), dest, back, i)];
    assert img[y..y + 2] == b;
    assert img[y] == img[y..y + 2][0] && img[y + 1] == img[y..y + 2][1];
    if Means(lines, i, dest, back, m) { MeansUnique(lines, i, dest, back, m); }
  }

  // ----- Alignment directives -----

  ghost predicate PowerAligns(lines: seq<Line>) {
    forall i :: 0 <= i < |lines| && lines[i].stmt.Align? ==> IsPow2(lines[i].stmt.to)
  }

  lemma {:induction false} AlignIsPower(lines: seq<Line>, n: nat, sec: nat)
    requires PowerAligns(lines) && n <= |lines|
    ensures IsPow2(AlignIn(AlignsOf(lines, n), sec))
  {
    if n > 0 {
      AlignIsPower(lines, n - 1, sec);
      AlignIsPower(lines, n - 1, CurAfter(lines, n - 1));
    }
  }

  lemma DirectiveDivides(lines: seq<Line>, i: nat)
    requires PowerAligns(lines) && i < |lines| && lines[i].stmt.Align?
    ensures lines[i].stmt.to > 0 && AlignIn(Final(lines).aligns, CurAfter(lines, i)) > 0
    ensures AlignIn(Final(lines).aligns, CurAfter(lines, i)) % lines[i].stmt.to == 0
    ensures IsPow2(lines[i].stmt.to) && IsPow2(AlignIn(Final(lines).aligns, CurAfter(lines, i)))
  {
    hide Final, AlignsOf, AlignIn, CurAfter, SecondPass;
    AlignIsPower(lines, |lines|, CurAfter(lines, i));
    AlignsCover(lines, i, |lines|, 1);
    SecondAligns(lines, |lines|);
    assert Final(lines) == SecondPass(lines, |lines|) by { FinalIs(lines); }
    PowersDivide(lines[i].stmt.to, AlignIn(AlignsOf(lines, |lines|), CurAfter(lines, i)));
  }

  lemma FinalIs(lines: seq<Line>)
    ensures Final(lines) == SecondPass(lines, |lines|)
  {
    hide SecondPass;
  }

  /** What follows an alignment directive is aligned in memory if and only if its output section
      is, which is so for every alignment of at most a page outside .multiboot. */
  lemma AlignLoaded(us: seq<Unit>, base: nat, f: nat, i: nat, t: nat)
    requires ProgramOk(us) && Kept(us, f, i, t) && i < |Lines(us, f)| && Lines(us, f)[i].stmt.Align?
    requires PowerAligns(Lines(us, f))
    ensures Kept(us, f, i + 1, t)
    ensures var n := Lines(us, f)[i].stmt.to; var a := base + LineAt(us, base, f, i + 1, t);
      n > 0 && (a % n == 0 <==> Vaddr(Inputs(us), base, t) % n == 0) && (t > 0 && n <= 4096 ==> a % n == 0)
  {
    hide ProgramOk, Inputs, InputOf, PlaceAfter, Final, SectionOf, Fits, Target, Vaddr, OffsetOf, Contents, IsPow2,
         SecBase;
    var lines := Lines(us, f);
    var n := lines[i].stmt.to;
    var ins := Inputs(us);
    var k := InputOf(us, f, CurAfter(lines, i));
    LineSection(us, f, i);
    DirectiveDivides(lines, i);
    SectionAlignIs(us[f].src, Final(lines), CurAfter(lines, i) - 1);
    PlacedAt(ins, k, t);
    ModTrans(OffsetOf(ins, k, t), AlignOf(ins[k]), n);
    AlignedAfter(lines, i);
    hide CurAfter;
    SumMod(Vaddr(ins, base, t), OffsetOf(ins, k, t), n);
    SumMod(Vaddr(ins, base, t) + OffsetOf(ins, k, t), PlaceAfter(lines, i + 1), n);
    VaddrStep(ins, base, t);
    if t > 0 && n <= 4096 {
      FourAndPage();
      PowersDivide(n, 4096);
      ModTrans(Vaddr(ins, base, t), 4096, n);
    }
  }

  lemma SectionAlignIs(src: Source, s: State, k: nat)
    requires k < |src.secs| && AlignIn(s.aligns, k + 1) > 0
    ensures AlignOf(SectionOf(src, s, k)) == AlignIn(s.aligns, k + 1)
  {
    hide CodeOf;
  }

  // ----- The whole build -----

  /** The file mentions the name without defining it. */
  ghost predicate Lacks(u: Unit, name: string) {
    name in LinkInput.Table(u).syms && Look(LinkInput.Table(u), name).home == Nowhere
  }

  /** The linker or some file defines the name for others. */
  ghost predicate Offered(us: seq<Unit>, name: string) {
    name == Linker.KERNEL_END || exists g :: 0 <= g < |us| && Exports(us[g], name)
  }

  ghost predicate SomeDef<V>(ds: seq<Linker.Def<V>>, name: string) { exists i: nat :: Linker.Defines(ds, i, name) }

  lemma SomeOfBoth<V>(a: seq<Linker.Def<V>>, b: seq<Linker.Def<V>>, name: string)
    ensures SomeDef(a + b, name) <==> SomeDef(a, name) || SomeDef(b, name)
  {
    if i: nat :| Linker.Defines(a, i, name) { assert Linker.Defines(a + b, i, name); }
    if i: nat :| Linker.Defines(b, i, name) { assert Linker.Defines(a + b, |a| + i, name); }
    if i: nat :| Linker.Defines(a + b, i, name) {
      if i < |a| { assert Linker.Defines(a, i, name); } else { assert Linker.Defines(b, i - |a|, name); }
    }
  }

  lemma NoDefs<V>(ds: seq<Linker.Def<V>>, name: string)
    requires ds == []
    ensures !SomeDef(ds, name)
  {
  }

  lemma UnitOffers(us: seq<Unit>, f: nat, name: string)
    requires ProgramOk(us) && f < |us|
    ensures SomeDef(DefsOf(us, f), name) <==> Exports(us[f], name)
  {
    hide ProgramOk, DefsOf, Exports, DefFits, Linker.Defines, Look, LinkInput.Table, ElfOf, SecBase;
    UnitDefines(us, f, name);
  }

  lemma {:induction false} DefsExactly(us: seq<Unit>, n: nat, name: string)
    requires ProgramOk(us) && n <= |us|
    ensures SomeDef(Defs(us, n), name) <==> exists g :: 0 <= g < n && Exports(us[g], name)
  {
    hide ProgramOk, DefsOf, Exports, SomeDef;
    if n == 0 {
      NoDefs<Linker.Symbol>([], name);
    } else {
      DefsExactly(us, n - 1, name);
      UnitOffers(us, n - 1, name);
      SomeOfBoth(Defs(us, n - 1), DefsOf(us, n - 1), name);
    }
  }

  lemma OfferedExactly(us: seq<Unit>, name: string)
    requires ProgramOk(us)
    ensures Linker.Available(Defs(us, |us|), name) <==> Offered(us, name)
  {
    hide ProgramOk, Defs, Exports;
    DefsExactly(us, |us|, name);
  }

  lemma {:induction false} NeededHas(symtab: seq<Elf>, n: nat, name: string)
    requires n <= |symtab|
    ensures name in NeededIn(symtab, n) <==>
      exists j :: 0 <= j < n && symtab[j].global && symtab[j].home == Nowhere && symtab[j].name == name
  {
    if n > 0 { NeededHas(symtab, n - 1, name); }
  }

  lemma UnitNeeds(u: Unit, name: string)
    requires UnitOk(u)
    ensures name in NeededIn(u.obj.symtab, |u.obj.symtab|) <==> Lacks(u, name)
  {
    hide SourceOk, SectionOf, Grouped, NeededIn, Final, IsObject;
    var symtab, t := u.obj.symtab, LinkInput.Table(u);
    SectionsAre(u);
    FinalTable(u.src.lines);
    NeededHas(symtab, |symtab|, name);
    if name in NeededIn(symtab, |symtab|) {
      var j :| 0 <= j < |symtab| && symtab[j].global && symtab[j].home == Nowhere && symtab[j].name == name;
      var i := EntryFrom(t, symtab, u.reindex, j);
    }
    if Lacks(u, name) {
      var i :| 0 <= i < |t.names| && t.names[i] == name;
      assert symtab[u.reindex[i]] == EntryOf(t, i);
    }
  }

  lemma {:induction false} NeededExactly(us: seq<Unit>, name: string)
    requires ProgramOk(us)
    ensures name in Needed(us) <==> exists f :: 0 <= f < |us| && Lacks(us[f], name)
  {
    hide UnitOk, NeededIn, Lacks;
    if us != [] {
      var n := |us| - 1;
      var front := us[..n];
      NeededExactly(front, name);
      UnitNeeds(us[n], name);
      if f :| 0 <= f < n && Lacks(front[f], name) { assert Lacks(us[f], name); }
      if f :| 0 <= f < |us| && Lacks(us[f], name) && f < n { assert Lacks(front[f], name); }
    }
  }

  /** Every name that a file lacks, and the entry point, is offered. */
  ghost predicate Complete(us: seq<Unit>) {
    && (forall f, name :: 0 <= f < |us| && Lacks(us[f], name) ==> Offered(us, name))
    && Offered(us, Linker.START)
  }

  lemma CompleteExactly(us: seq<Unit>)
    requires ProgramOk(us)
    ensures Complete(us) <==>
      && (forall n :: n in Needed(us) ==> Linker.Available(Defs(us, |us|), n))
      && Linker.Available(Defs(us, |us|), Linker.START)
  {
    hide ProgramOk, Needed, Linker.Available, Offered, Lacks, Defs;
    forall n ensures Linker.Available(Defs(us, |us|), n) <==> Offered(us, n) { OfferedExactly(us, n); }
    forall n ensures n in Needed(us) <==> exists f :: 0 <= f < |us| && Lacks(us[f], n) { NeededExactly(us, n); }
  }

  /** The program starts on the line that has the label of the entry point. */
  lemma EntryLands(us: seq<Unit>, base: nat, g: nat, m: nat, u: nat)
    requires ProgramOk(us) && g < |us| && Exports(us[g], Linker.START)
    requires forall h :: g < h < |us| ==> !Exports(us[h], Linker.START)
    requires LabelledLast(Lines(us, g), Linker.START, m) && Kept(us, g, m, u)
    ensures Linker.DefinitionsOk(Inputs(us), Defs(us, |us|)) && Linker.START in GlobalsOf(us, base)
    ensures GlobalsOf(us, base)[Linker.START] == base + LineAt(us, base, g, m, u)
  {
    hide ProgramOk, Inputs, SecBase, LinkInput.Table, Look, LabelledLast, Defs, Linker.Globals, Kept, LineAt,
         Linker.Available;
    DefsOk(us, |us|);
    Linker.AvailableExactly(Inputs(us), base, Defs(us, |us|), Linker.START);
    OfferedExactly(us, Linker.START);
    LabelValue(us, base, g, Linker.START, g, m, u);
  }

  ghost predicate Assembled(srcs: seq<Source>, us: seq<Unit>, n: nat) {
    n <= |srcs| && |us| == n && forall f :: 0 <= f < n ==> us[f].src == srcs[f] && UnitOk(us[f])
  }

  /** The files are assembled one after the other and linked; this fails exactly if a name that
      a file lacks, or the entry point, is not offered by any of them. */
  method Build(srcs: seq<Source>, base: nat)
    returns (us: seq<Unit>, r: Option<Linker.Program>, rels: seq<Linker.Rel>)
    requires forall f :: 0 <= f < |srcs| ==> SourceOk(srcs[f])
    ensures Assembled(srcs, us, |srcs|) && ProgramOk(us) && LinesKept(us)
    ensures r.Some? <==> Complete(us)
    ensures r.Some? ==> IsLinked(us, base, rels, r.value.bytes)
    ensures r.Some? ==> Linker.START in GlobalsOf(us, base) && r.value.entry == GlobalsOf(us, base)[Linker.START]
  {
    hide SourceOk, IsObject, Inputs, Defs, Needed, Entries, Linker.DefinitionsOk, Linker.EntriesOk, Linker.SitesOk,
         Linker.AllRels, Linker.RelsOk, Linker.IsSegment, Linker.Globals, Linker.Available, Complete,
         LinesKept;
    us := [];
    for f := 0 to |srcs|
      invariant Assembled(srcs, us, f)
    {
      var obj, reindex := AssembleFile(srcs[f]);
      us := us + [Unit(srcs[f], obj, reindex[..])];
    }
    InputsOk(us);
    AllLinesKept(us);
    CompleteExactly(us);
    r, rels := Linker.Link(Inputs(us), base, Defs(us, |us|), Needed(us), Entries(us, |us|));
  }
}
