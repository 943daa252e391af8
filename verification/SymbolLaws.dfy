/**
  What the directives of a source file come to in its object: the values of .set, the storage of
  .comm, the visibility that .globl and .local leave, and the alignment of a section.
 */
module SymbolLaws {
  import opened Prelude
  import opened AsmSymbols
  import opened TwoPass

  /** The line says whether a name is global. */
  predicate Rules(l: Line, name: string) {
    (l.stmt.Bind? && l.stmt.name == name) || (l.stmt.Common? && l.stmt.name == name)
  }

  /** Nothing behind line m gives the name a value. */
  ghost predicate DefinedLast(lines: seq<Line>, name: string, m: nat) {
    m < |lines| && Defines(lines[m], name) && forall j :: m < j < |lines| ==> !Defines(lines[j], name)
  }

  /** The symbol table has the latest word of the lines on each field. */
  lemma FinalLook(lines: seq<Line>, name: string)
    ensures Look(Final(lines).table, name) == Latest(NEW, TouchesOf(lines, |lines|), name)
  {
    hide Final, TouchesOf, ApplyAll, Latest;
    SymbolsAgree(lines, |lines|);
    ApplyLook(EMPTY, TouchesOf(lines, |lines|), name);
  }

  // ----- Values -----

  lemma {:induction false} LastDefAt(lines: seq<Line>, n: nat, name: string, m: nat)
    requires DefinedLast(lines, name, m) && m < n <= |lines|
    ensures LastDef(TouchesOf(lines, n), name) == LastDef(TouchesAt(lines, m), name)
    decreases n
  {
    hide LineTouches, CurAfter, PlaceAfter, LastDef;
    LastDefAppend(TouchesOf(lines, n - 1), TouchesAt(lines, n - 1), name);
    LineDef(lines[n - 1], CurAfter(lines, n - 1), PlaceAfter(lines, n - 1), name);
    if m < n - 1 { LastDefAt(lines, n - 1, name, m); }
  }

  /** A name that was last given a number by .set has that number. */
  lemma SetNumber(lines: seq<Line>, name: string, m: nat, v: nat)
    requires DefinedLast(lines, name, m) && lines[m].stmt == Equate(name, v)
    ensures var x := Look(Final(lines).table, name); x.home == Absolute && x.value == v
  {
    hide Final, TouchesOf, LastDef, CurAfter, PlaceAfter;
    FinalLook(lines, name);
    LastDefAt(lines, |lines|, name, m);
    StmtWins(lines[m], CurAfter(lines, m), PlaceAfter(lines, m), name);
  }

  /** A name that was last given common storage has that size and alignment. */
  lemma CommonStorage(lines: seq<Line>, name: string, m: nat, size: nat, align: nat)
    requires DefinedLast(lines, name, m) && lines[m].stmt == Common(name, size, align)
    ensures var x := Look(Final(lines).table, name); x.home == Shared && x.value == align && x.size == size
  {
    hide Final, TouchesOf, LastDef, LastSize, CurAfter, PlaceAfter;
    FinalLook(lines, name);
    LastDefAt(lines, |lines|, name, m);
    StmtWins(lines[m], CurAfter(lines, m), PlaceAfter(lines, m), name);
    LastSizeAt(lines, |lines|, name, m);
  }

  /** On a line with a label and a directive the directive has the last word. */
  lemma StmtWins(l: Line, sec: nat, at: nat, name: string)
    requires l.stmt.Equate? || l.stmt.Common?
    requires l.stmt.name == name
    ensures LastDef(LineTouches(l, sec, at), name)
         == Some(if l.stmt.Equate? then (Absolute, l.stmt.value) else (Shared, l.stmt.align))
  {
    LastDefAppend(MarkTouches(l.mark, sec, at), StmtTouches(l.stmt), name);
  }

  lemma {:induction false} LastSizeAppend(us: seq<Touch>, vs: seq<Touch>, name: string)
    ensures LastSize(us + vs, name) == if LastSize(vs, name).Some? then LastSize(vs, name) else LastSize(us, name)
    decreases |vs|
  {
    if vs == [] {
      assert us + vs == us;
    } else {
      assert (us + vs)[..|us + vs| - 1] == us + vs[..|vs| - 1];
      LastSizeAppend(us, vs[..|vs| - 1], name);
    }
  }

  lemma LineSize(l: Line, sec: nat, at: nat, name: string)
    ensures LastSize(LineTouches(l, sec, at), name)
         == if l.stmt.Common? && l.stmt.name == name then Some(l.stmt.size) else None
  {
    LastSizeAppend(MarkTouches(l.mark, sec, at), StmtTouches(l.stmt), name);
    if l.stmt.Emit? {
      hide PartsSites;
      MentionsSay(PartsSites(l.stmt.parts, 0), name);
    } else {
      var ts := StmtTouches(l.stmt);
      if ts != [] { assert ts[..0] == []; }
    }
  }

  lemma {:induction false} MentionsSay(sites: seq<Site>, name: string)
    ensures LastSize(SiteTouches(sites), name) == None && LastGlobal(SiteTouches(sites), name) == None
  {
    if sites != [] {
      var n := |sites| - 1;
      MentionsSay(sites[..n], name);
      assert SiteTouches(sites)[..n] == SiteTouches(sites[..n]);
    }
  }

  lemma {:induction false} LastSizeAt(lines: seq<Line>, n: nat, name: string, m: nat)
    requires DefinedLast(lines, name, m) && m < n <= |lines| && lines[m].stmt.Common? && lines[m].stmt.name == name
    ensures LastSize(TouchesOf(lines, n), name) == Some(lines[m].stmt.size)
    decreases n
  {
    hide LineTouches, CurAfter, PlaceAfter, LastSize;
    LastSizeAppend(TouchesOf(lines, n - 1), TouchesAt(lines, n - 1), name);
    LineSize(lines[n - 1], CurAfter(lines, n - 1), PlaceAfter(lines, n - 1), name);
    if m < n - 1 { LastSizeAt(lines, n - 1, name, m); }
  }

  /** A name without common storage has size zero. */
  lemma NoSize(lines: seq<Line>, name: string)
    requires forall j :: 0 <= j < |lines| ==> !(lines[j].stmt.Common? && lines[j].stmt.name == name)
    ensures Look(Final(lines).table, name).size == 0
  {
    hide Final, TouchesOf, LastSize;
    FinalLook(lines, name);
    NoSizeIn(lines, |lines|, name);
  }

  lemma {:induction false} NoSizeIn(lines: seq<Line>, n: nat, name: string)
    requires n <= |lines| && forall j :: 0 <= j < n ==> !(lines[j].stmt.Common? && lines[j].stmt.name == name)
    ensures LastSize(TouchesOf(lines, n), name) == None
  {
    hide LineTouches, CurAfter, PlaceAfter;
    if n > 0 {
      LastSizeAppend(TouchesOf(lines, n - 1), TouchesAt(lines, n - 1), name);
      LineSize(lines[n - 1], CurAfter(lines, n - 1), PlaceAfter(lines, n - 1), name);
      NoSizeIn(lines, n - 1, name);
    }
  }

  // ----- Visibility -----

  lemma {:induction false} LastGlobalAppend(us: seq<Touch>, vs: seq<Touch>, name: string)
    ensures LastGlobal(us + vs, name)
         == if LastGlobal(vs, name).Some? then LastGlobal(vs, name) else LastGlobal(us, name)
    decreases |vs|
  {
    if vs == [] {
      assert us + vs == us;
    } else {
      assert (us + vs)[..|us + vs| - 1] == us + vs[..|vs| - 1];
      LastGlobalAppend(us, vs[..|vs| - 1], name);
    }
  }

  lemma LineGlobal(l: Line, sec: nat, at: nat, name: string)
    ensures LastGlobal(LineTouches(l, sec, at), name)
         == if !Rules(l, name) then None else Some(l.stmt.Bind? ==> l.stmt.global)
  {
    LastGlobalAppend(MarkTouches(l.mark, sec, at), StmtTouches(l.stmt), name);
    if l.stmt.Emit? {
      hide PartsSites;
      MentionsSay(PartsSites(l.stmt.parts, 0), name);
    } else {
      var ts := StmtTouches(l.stmt);
      if ts != [] { assert ts[..0] == []; }
    }
  }

  /** The last line that rules on the name among the first n, if there is one. */
  ghost predicate RulesLast(lines: seq<Line>, n: nat, name: string, m: Option<nat>) {
    && n <= |lines|
    && (m.Some? ==> m.value < n && Rules(lines[m.value], name))
    && (forall j :: (if m.Some? then m.value + 1 else 0) <= j < n ==> !Rules(lines[j], name))
  }

  lemma {:induction false} LastGlobalAt(lines: seq<Line>, n: nat, name: string, m: Option<nat>)
    requires RulesLast(lines, n, name, m)
    ensures LastGlobal(TouchesOf(lines, n), name)
         == if m.None? then None else Some(lines[m.value].stmt.Bind? ==> lines[m.value].stmt.global)
    decreases n
  {
    hide LineTouches, CurAfter, PlaceAfter;
    if n > 0 {
      LastGlobalAppend(TouchesOf(lines, n - 1), TouchesAt(lines, n - 1), name);
      LineGlobal(lines[n - 1], CurAfter(lines, n - 1), PlaceAfter(lines, n - 1), name);
      hide LastGlobal;
      if m != Some(n - 1) { LastGlobalAt(lines, n - 1, name, m); }
    }
  }

  /** A name is global exactly if the last line that rules on it is .globl or .comm. */
  lemma GlobalExactly(lines: seq<Line>, name: string, m: Option<nat>)
    requires RulesLast(lines, |lines|, name, m)
    ensures Look(Final(lines).table, name).global <==>
      m.Some? && (lines[m.value].stmt.Common? || lines[m.value].stmt == Bind(name, true))
  {
    hide Final, TouchesOf, LastGlobal;
    FinalLook(lines, name);
    LastGlobalAt(lines, |lines|, name, m);
  }

  // ----- Alignment -----

  ghost predicate AlignLine(lines: seq<Line>, i: nat, sec: nat) {
    i < |lines| && lines[i].stmt.Align? && CurAfter(lines, i) == sec
  }

  /** The alignment of a section is the largest that its lines ask for, and at least four. */
  lemma SectionAlignment(lines: seq<Line>, sec: nat)
    ensures var a := AlignIn(Final(lines).aligns, sec);
      && a >= 4
      && (forall i: nat :: AlignLine(lines, i, sec) ==> lines[i].stmt.to <= a)
      && (a == 4 || exists i: nat :: AlignLine(lines, i, sec) && lines[i].stmt.to == a)
  {
    hide Final, AlignsOf, CurAfter, SecondPass;
    assert Final(lines).aligns == AlignsOf(lines, |lines|) by { FinalAligns(lines); }
    hide AlignIn;
    AlignMax(lines, |lines|, sec);
  }

  lemma FinalAligns(lines: seq<Line>)
    ensures Final(lines).aligns == AlignsOf(lines, |lines|)
  {
    hide SecondPass, AlignsOf;
    SecondAligns(lines, |lines|);
  }

  lemma {:induction false} AlignMax(lines: seq<Line>, n: nat, sec: nat)
    requires n <= |lines|
    ensures var a := AlignIn(AlignsOf(lines, n), sec);
      && a >= 4
      && (forall i: nat :: i < n && AlignLine(lines, i, sec) ==> lines[i].stmt.to <= a)
      && (a == 4 || exists i: nat :: i < n && AlignLine(lines, i, sec) && lines[i].stmt.to == a)
  {
    hide CurAfter;
    if n > 0 {
      AlignMax(lines, n - 1, sec);
      var a, b := AlignIn(AlignsOf(lines, n), sec), AlignIn(AlignsOf(lines, n - 1), sec);
      assert a != b ==> AlignLine(lines, n - 1, sec) && lines[n - 1].stmt.to == a;
    }
  }
}
