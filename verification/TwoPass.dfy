/**
  The assembler's two passes over abstract lines: the first collects label offsets and symbols,
  the second emits the code with them. Sections are counted from one; number zero is unused.
 */
module TwoPass {
  import opened Prelude
  import opened Words
  import opened ModRm
  import opened AsmSymbols

  /** What an instruction or a data directive is made of: plain bytes, a word of four bytes that
      may carry a symbol, or a register or memory operand. */
  datatype Part =
    | Bytes(bytes: seq<Byte>)
    | Field(value: Int32, sym: Option<string>, pcrel: bool)
    | RegMem(reg: Reg, op: Operand)

  datatype Stmt =
    | Emit(parts: seq<Part>)
    | Align(to: nat)
    | ShortJump(code: Byte, dest: string, back: bool)
    | Switch(section: nat)
    | Bind(name: string, global: bool)
    | Equate(name: string, value: nat)
    | Common(name: string, size: nat, align: nat)

  datatype Line = Line(mark: Option<string>, stmt: Stmt)

  datatype Label = Label(name: string, section: nat, offset: nat, line: nat)

  /** A relocation entry, absolute or relative to its place, with the index of its symbol. */
  datatype Fixup = Fixup(section: nat, offset: nat, sym: nat, pcrel: bool)

  /** `code` gives the bytes of each section and `aligns` its alignment. */
  datatype State = State(
    code: map<nat, seq<Byte>>,
    cur: nat,
    aligns: map<nat, nat>,
    labels: seq<Label>,
    table: Table,
    relocs: seq<Fixup>)

  function CodeOf(s: State, sec: nat): seq<Byte> { if sec in s.code then s.code[sec] else [] }

  function Here(s: State): nat { |CodeOf(s, s.cur)| }

  /** Sections are created with an alignment of four. */
  function AlignIn(aligns: map<nat, nat>, sec: nat): nat { if sec in aligns then aligns[sec] else 4 }

  // ----- Numeric labels -----

  /** Forward references look at lines before this one only. */
  const LAST_LINE: nat := 999999

  predicate Matches(l: Label, name: string, sec: nat, line: nat, back: bool) {
    && l.name == name && l.section == sec
    && (if back then l.line < line else line < l.line < LAST_LINE)
  }

  predicate Closer(l: Label, m: Label, back: bool) { if back then l.line > m.line else l.line < m.line }

  /** The matching label nearest to the line, among the first n. */
  function Nearest(labels: seq<Label>, n: nat, name: string, sec: nat, line: nat, back: bool): (r: Option<nat>)
    requires n <= |labels|
    ensures r.Some? ==> r.value < n && Matches(labels[r.value], name, sec, line, back)
    ensures forall k :: 0 <= k < n && Matches(labels[k], name, sec, line, back) ==>
      r.Some? && !Closer(labels[k], labels[r.value], back)
  {
    if n == 0 then None
    else
      var r := Nearest(labels, n - 1, name, sec, line, back);
      var l := labels[n - 1];
      if Matches(l, name, sec, line, back) && (r.None? || Closer(l, labels[r.value], back)) then Some(n - 1) else r
  }

  /** The search loop, with the line of the best label so far. */
  method FindNumeric(labels: seq<Label>, name: string, sec: nat, line: nat, back: bool) returns (r: Option<nat>)
    ensures var k := Nearest(labels, |labels|, name, sec, line, back);
            r == if k.Some? then Some(labels[k.value].offset) else None
  {
    r := None;
    var best: int := if back then -1 else LAST_LINE;
    for k := 0 to |labels|
      invariant var i := Nearest(labels, k, name, sec, line, back);
        if i.Some? then r == Some(labels[i.value].offset) && best == labels[i.value].line
        else r == None && best == if back then -1 else LAST_LINE
    {
      var l := labels[k];
      if l.name == name && l.section == sec {
        if back && l.line < line && l.line > best {
          best, r := l.line, Some(l.offset);
        } else if !back && l.line > line && l.line < best {
          best, r := l.line, Some(l.offset);
        }
      }
    }
  }

  // ----- Parts -----

  function PartBytes(p: Part): seq<Byte> {
    match p
    case Bytes(bytes) => bytes
    case Field(value, _, _) => Dword(value)
    case RegMem(reg, op) => Encode(reg, op)
  }

  function PartsBytes(parts: seq<Part>): seq<Byte> {
    if parts == [] then [] else PartsBytes(parts[..|parts| - 1]) + PartBytes(parts[|parts| - 1])
  }

  /** A place that a symbol is to be filled in, by name. */
  datatype Site = Site(offset: nat, sym: string, pcrel: bool)

  function PartSites(p: Part, at: nat): seq<Site> {
    match p
    case Bytes(_) => []
    case Field(_, sym, pcrel) => if sym.Some? then [Site(at, sym.value, pcrel)] else []
    case RegMem(reg, op) =>
      if op.Memory? && op.sym.Some? then [Site(at + |Head(reg, op)|, op.sym.value, false)] else []
  }

  function PartsSites(parts: seq<Part>, at: nat): seq<Site> {
    if parts == [] then []
    else
      var front := parts[..|parts| - 1];
      PartsSites(front, at) + PartSites(parts[|parts| - 1], at + |PartsBytes(front)|)
  }

  function SitesOf(stmt: Stmt, at: nat): seq<Site> { if stmt.Emit? then PartsSites(stmt.parts, at) else [] }

  /** Where part j begins, counted from the start of the statement. */
  function PartOffset(parts: seq<Part>, j: nat): nat
    requires j <= |parts|
  {
    |PartsBytes(parts[..j])|
  }

  // ----- What a line says about symbols -----

  function Mention(name: string): Touch { Touch(name, None, None, None) }

  function SiteTouches(sites: seq<Site>): (r: seq<Touch>)
    ensures |r| == |sites| && forall i :: 0 <= i < |r| ==> r[i] == Mention(sites[i].sym)
  {
    seq(|sites|, i requires 0 <= i < |sites| => Mention(sites[i].sym))
  }

  function StmtTouches(stmt: Stmt): seq<Touch> {
    match stmt
    case Emit(parts) => SiteTouches(PartsSites(parts, 0))
    case Bind(name, global) => [Touch(name, None, None, Some(global))]
    case Equate(name, value) => [Touch(name, Some((Absolute, value)), None, None)]
    case Common(name, size, align) => [Touch(name, Some((Shared, align)), Some(size), Some(true))]
    case _ => []
  }

  function MarkTouches(mark: Option<string>, sec: nat, at: nat): seq<Touch> {
    if mark.None? then [] else [Touch(mark.value, Some((In(sec), at)), None, None)]
  }

  function LineTouches(l: Line, sec: nat, at: nat): seq<Touch> { MarkTouches(l.mark, sec, at) + StmtTouches(l.stmt) }

  // ----- One line -----

  /** The displacement byte of a short jump; zero if there is no label. */
  function JumpByte(s: State, dest: string, back: bool, line: nat): Byte {
    var k := Nearest(s.labels, |s.labels|, dest, s.cur, line, back);
    if k.None? then 0 else ByteOf(s.labels[k.value].offset - (Here(s) + 2))
  }

  /** The zero bytes of an alignment directive; an alignment of zero asks for none. */
  function Padding(to: nat, at: nat): nat {
    if to == 0 then 0
    else
      AlignUpBounds(at, to);
      AlignUp(at, to) - at
  }

  function BytesOf(s: State, stmt: Stmt, line: nat): seq<Byte> {
    match stmt
    case Emit(parts) => PartsBytes(parts)
    case Align(to) => Zeros(Padding(to, Here(s)))
    case ShortJump(code, dest, back) => [code, JumpByte(s, dest, back, line)]
    case _ => []
  }

  /** How much a statement adds depends on where it stands, never on a symbol. */
  function SizeAt(stmt: Stmt, at: nat): nat {
    match stmt
    case Emit(parts) => |PartsBytes(parts)|
    case Align(to) => Padding(to, at)
    case ShortJump(_, _, _) => 2
    case _ => 0
  }

  lemma SizeIs(s: State, stmt: Stmt, line: nat)
    ensures |BytesOf(s, stmt, line)| == SizeAt(stmt, Here(s))
    ensures stmt.Switch? ==> SizeAt(stmt, Here(s)) == 0
  {
    hide PartsBytes, Padding, JumpByte;
  }

  /** The offset of the label on a line, in the second pass. */
  function Updated(labels: seq<Label>, line: nat, offset: nat): (r: seq<Label>)
    ensures |r| == |labels|
  {
    if labels == [] then []
    else if labels[0].line == line then [labels[0].(offset := offset)] + labels[1..]
    else [labels[0]] + Updated(labels[1..], line, offset)
  }

  /** The table of labels, with the label of a line. */
  function Labelled(s: State, mark: Option<string>, line: nat, pass: nat): State {
    if mark.None? then s
    else if pass == 1 then s.(labels := s.labels + [Label(mark.value, s.cur, Here(s), line)])
    else s.(labels := Updated(s.labels, line, Here(s)))
  }

  /** The state in which a line emits: its label and its symbols are in the tables. */
  function Defined(s: State, l: Line, line: nat, pass: nat): State {
    Labelled(s, l.mark, line, pass).(table := ApplyAll(s.table, LineTouches(l, s.cur, Here(s))))
  }

  function ToFixup(names: seq<string>, sec: nat, x: Site): Fixup {
    Fixup(sec, x.offset, if x.sym in names then IndexIn(names, x.sym) else 0, x.pcrel)
  }

  function ToFixups(names: seq<string>, sec: nat, sites: seq<Site>): (r: seq<Fixup>)
    ensures |r| == |sites|
  {
    seq(|sites|, i requires 0 <= i < |sites| => ToFixup(names, sec, sites[i]))
  }

  function Raised(aligns: map<nat, nat>, sec: nat, to: nat): map<nat, nat> {
    if to > AlignIn(aligns, sec) then aligns[sec := to] else aligns
  }

  function EmitStmt(s: State, stmt: Stmt, line: nat, pass: nat): State {
    if stmt.Switch? then s.(cur := stmt.section)
    else
      s.(code := s.code[s.cur := CodeOf(s, s.cur) + BytesOf(s, stmt, line)],
         aligns := if stmt.Align? then Raised(s.aligns, s.cur, stmt.to) else s.aligns,
         relocs := if pass == 2 then s.relocs + ToFixups(s.table.names, s.cur, SitesOf(stmt, Here(s))) else s.relocs)
  }

  /** assemble_line. */
  function Step(s: State, l: Line, line: nat, pass: nat): State {
    EmitStmt(Defined(s, l, line, pass), l.stmt, line, pass)
  }

  function Run(s: State, lines: seq<Line>, n: nat, pass: nat): State
    requires n <= |lines|
  {
    if n == 0 then s else Step(Run(s, lines, n - 1, pass), lines[n - 1], n - 1, pass)
  }

  /** How a pass begins: in the first section, all sections empty, the tables as they are. */
  function Begin(s: State): State { s.(code := map[], cur := 1, relocs := []) }

  const BLANK := State(map[], 1, map[], [], EMPTY, [])

  function FirstPass(lines: seq<Line>): State { Run(Begin(BLANK), lines, |lines|, 1) }

  /** The second pass after n lines. */
  function SecondPass(lines: seq<Line>, n: nat): State
    requires n <= |lines|
  {
    Run(Begin(FirstPass(lines)), lines, n, 2)
  }

  /** What goes into the object file. */
  function Final(lines: seq<Line>): State { SecondPass(lines, |lines|) }

  // ----- What the lines say by themselves -----

  function CurAfter(lines: seq<Line>, n: nat): nat
    requires n <= |lines|
  {
    if n == 0 then 1 else if lines[n - 1].stmt.Switch? then lines[n - 1].stmt.section else CurAfter(lines, n - 1)
  }

  function SizeAfter(lines: seq<Line>, n: nat, sec: nat): nat
    requires n <= |lines|
  {
    if n == 0 then 0
    else
      var at := SizeAfter(lines, n - 1, sec);
      at + if CurAfter(lines, n - 1) == sec then SizeAt(lines[n - 1].stmt, at) else 0
  }

  /** Where the next line goes. */
  function PlaceAfter(lines: seq<Line>, n: nat): nat
    requires n <= |lines|
  {
    SizeAfter(lines, n, CurAfter(lines, n))
  }

  function LabelsOf(lines: seq<Line>, n: nat): (r: seq<Label>)
    requires n <= |lines|
    ensures forall k :: 0 <= k < |r| ==> r[k].line < n
  {
    if n == 0 then []
    else if lines[n - 1].mark.None? then LabelsOf(lines, n - 1)
    else
      LabelsOf(lines, n - 1) +
      [Label(lines[n - 1].mark.value, CurAfter(lines, n - 1), PlaceAfter(lines, n - 1), n - 1)]
  }

  /** What line i says about symbols. */
  function TouchesAt(lines: seq<Line>, i: nat): seq<Touch>
    requires i < |lines|
  {
    LineTouches(lines[i], CurAfter(lines, i), PlaceAfter(lines, i))
  }

  function TouchesOf(lines: seq<Line>, n: nat): seq<Touch>
    requires n <= |lines|
  {
    if n == 0 then [] else TouchesOf(lines, n - 1) + TouchesAt(lines, n - 1)
  }

  function AlignsOf(lines: seq<Line>, n: nat): map<nat, nat>
    requires n <= |lines|
  {
    if n == 0 then map[]
    else if !lines[n - 1].stmt.Align? then AlignsOf(lines, n - 1)
    else Raised(AlignsOf(lines, n - 1), CurAfter(lines, n - 1), lines[n - 1].stmt.to)
  }

  /** The relocations of line i, with the indices of a table of names. */
  function FixupsAt(names: seq<string>, lines: seq<Line>, i: nat): seq<Fixup>
    requires i < |lines|
  {
    ToFixups(names, CurAfter(lines, i), SitesOf(lines[i].stmt, PlaceAfter(lines, i)))
  }

  function FixupsOf(names: seq<string>, lines: seq<Line>, n: nat): seq<Fixup>
    requires n <= |lines|
  {
    if n == 0 then [] else FixupsOf(names, lines, n - 1) + FixupsAt(names, lines, n - 1)
  }

  // ----- Agreement of the passes -----

  /** A state that is where the lines say. */
  ghost predicate InStep(s: State, lines: seq<Line>, n: nat) {
    && n <= |lines|
    && s.cur == CurAfter(lines, n)
    && (forall sec: nat :: |CodeOf(s, sec)| == SizeAfter(lines, n, sec))
  }

  lemma DefinedPlace(s: State, l: Line, line: nat, pass: nat)
    ensures var t := Defined(s, l, line, pass);
      t.cur == s.cur && t.code == s.code && t.aligns == s.aligns && t.relocs == s.relocs && Here(t) == Here(s)
  {
    hide Updated, LineTouches, ApplyAll;
  }

  lemma StepInStep(s: State, lines: seq<Line>, n: nat, pass: nat)
    requires InStep(s, lines, n) && n < |lines|
    ensures InStep(Step(s, lines[n], n, pass), lines, n + 1)
    ensures Here(s) == PlaceAfter(lines, n) && s.cur == CurAfter(lines, n)
  {
    hide BytesOf, SizeAt, Defined, ToFixups;
    var l := lines[n];
    var t := Defined(s, l, n, pass);
    DefinedPlace(s, l, n, pass);
    SizeIs(t, l.stmt, n);
    var u := Step(s, l, n, pass);
    forall sec: nat ensures |CodeOf(u, sec)| == SizeAfter(lines, n + 1, sec) {
      assert |CodeOf(s, sec)| == SizeAfter(lines, n, sec);
    }
  }

  lemma {:induction false} RunInStep(s: State, lines: seq<Line>, n: nat, pass: nat)
    requires n <= |lines|
    ensures InStep(Run(Begin(s), lines, n, pass), lines, n)
  {
    hide Step;
    if n > 0 {
      hide InStep;
      RunInStep(s, lines, n - 1, pass);
      StepInStep(Run(Begin(s), lines, n - 1, pass), lines, n - 1, pass);
    }
  }

  lemma RunPlace(s: State, lines: seq<Line>, n: nat, pass: nat)
    requires n < |lines|
    ensures var r := Run(Begin(s), lines, n, pass); Here(r) == PlaceAfter(lines, n) && r.cur == CurAfter(lines, n)
  {
    hide Step, InStep, Run;
    RunInStep(s, lines, n, pass);
    StepInStep(Run(Begin(s), lines, n, pass), lines, n, pass);
  }

  /** After every line both passes have the same section sizes, alignment directives included. */
  lemma PassesAgree(lines: seq<Line>, n: nat, sec: nat)
    requires n <= |lines|
    ensures |CodeOf(Run(Begin(BLANK), lines, n, 1), sec)| == |CodeOf(SecondPass(lines, n), sec)|
    ensures |CodeOf(SecondPass(lines, n), sec)| == SizeAfter(lines, n, sec)
  {
    hide Run;
    RunInStep(BLANK, lines, n, 1);
    RunInStep(FirstPass(lines), lines, n, 2);
  }

  lemma SecondStep(lines: seq<Line>, n: nat)
    requires n < |lines|
    ensures SecondPass(lines, n + 1) == Step(SecondPass(lines, n), lines[n], n, 2)
    ensures Here(SecondPass(lines, n)) == PlaceAfter(lines, n) && SecondPass(lines, n).cur == CurAfter(lines, n)
  {
    hide Step, FirstPass, Here;
    RunPlace(FirstPass(lines), lines, n, 2);
  }

  /** Where an alignment directive leaves the section: less than its argument further, and at a
      multiple of it if that is a power of two. */
  lemma AlignedAfter(lines: seq<Line>, i: nat)
    requires i < |lines| && lines[i].stmt.Align? && lines[i].stmt.to > 0
    ensures PlaceAfter(lines, i) <= PlaceAfter(lines, i + 1) < PlaceAfter(lines, i) + lines[i].stmt.to
    ensures IsPow2(lines[i].stmt.to) ==> PlaceAfter(lines, i + 1) % lines[i].stmt.to == 0
  {
    hide AlignUp, IsPow2, PlaceAfter, CurAfter, SizeAt;
    AlignUpBounds(PlaceAfter(lines, i), lines[i].stmt.to);
    AlignPlace(lines, i);
  }

  lemma AlignPlace(lines: seq<Line>, i: nat)
    requires i < |lines| && lines[i].stmt.Align? && lines[i].stmt.to > 0
    ensures PlaceAfter(lines, i + 1) == AlignUp(PlaceAfter(lines, i), lines[i].stmt.to)
  {
    hide AlignUp, PartsBytes;
    assert CurAfter(lines, i + 1) == CurAfter(lines, i);
  }

  /** An alignment of zero asks for nothing. */
  lemma AlignNone(lines: seq<Line>, i: nat)
    requires i < |lines| && lines[i].stmt == Align(0)
    ensures PlaceAfter(lines, i + 1) == PlaceAfter(lines, i)
  {
  }

  /** Every directive with this argument leaves its section at a multiple of it. */
  ghost predicate Aligns(to: nat)
    requires to > 0
  {
    forall lines: seq<Line>, i: nat :: i < |lines| && lines[i].stmt == Align(to) ==> PlaceAfter(lines, i + 1) % to == 0
  }

  /** That is so exactly for the powers of two; any other argument fails behind one byte. */
  lemma DirectivesExactly(to: nat)
    requires to > 0
    ensures Aligns(to) <==> IsPow2(to)
  {
    if IsPow2(to) {
      forall lines: seq<Line>, i: nat | i < |lines| && lines[i].stmt == Align(to)
        ensures PlaceAfter(lines, i + 1) % to == 0
      {
        AlignedAfter(lines, i);
      }
    } else {
      var lines := [Line(None, Emit([Bytes([0])])), Line(None, Align(to))];
      OddAlign(lines, to);
      hide AlignUp, IsPow2;
      OneRounded(to);
      DivMod(AlignUp(1, to), to, 0, AlignUp(1, to));
    }
  }

  lemma OddAlign(lines: seq<Line>, to: nat)
    requires to > 0 && lines == [Line(None, Emit([Bytes([0])])), Line(None, Align(to))]
    ensures PlaceAfter(lines, 2) == AlignUp(1, to)
    ensures to == 6 ==> PlaceAfter(lines, 2) == 2
  {
    hide AlignUp, IsPow2;
    if to == 6 { SixRounded(); }
    AlignUpBounds(1, to);
    OneByte(lines[0].stmt);
    hide PartsBytes;
    assert CurAfter(lines, 0) == 1 && CurAfter(lines, 1) == 1 && CurAfter(lines, 2) == 1;
    assert SizeAfter(lines, 1, 1) == 1;
  }

  lemma OneByte(stmt: Stmt)
    requires stmt == Emit([Bytes([0])])
    ensures |PartsBytes(stmt.parts)| == 1
  {
    assert stmt.parts[..0] == [];
  }

  // ----- Labels -----

  lemma StepLabels(s: State, l: Line, line: nat, pass: nat)
    ensures Step(s, l, line, pass).labels == Labelled(s, l.mark, line, pass).labels
    ensures Step(s, l, line, pass).table == ApplyAll(s.table, LineTouches(l, s.cur, Here(s)))
    ensures Defined(s, l, line, pass).labels == Labelled(s, l.mark, line, pass).labels
  {
    hide BytesOf, ToFixups, Updated, LineTouches, ApplyAll;
  }

  lemma {:induction false} FirstLabels(lines: seq<Line>, n: nat)
    requires n <= |lines|
    ensures Run(Begin(BLANK), lines, n, 1).labels == LabelsOf(lines, n)
  {
    hide Step, Here;
    if n > 0 {
      FirstLabels(lines, n - 1);
      RunPlace(BLANK, lines, n - 1, 1);
      StepLabels(Run(Begin(BLANK), lines, n - 1, 1), lines[n - 1], n - 1, 1);
    }
  }

  ghost predicate LabelAt(lines: seq<Line>, l: Label) {
    && l.line < |lines| && lines[l.line].mark == Some(l.name)
    && l.section == CurAfter(lines, l.line) && l.offset == PlaceAfter(lines, l.line)
  }

  /** The labels are those of the lines, each with the place of its line. */
  lemma {:induction false} LabelsExactly(lines: seq<Line>, n: nat)
    requires n <= |lines|
    ensures forall k :: 0 <= k < |LabelsOf(lines, n)| ==> LabelAt(lines, LabelsOf(lines, n)[k])
    ensures forall i :: 0 <= i < n && lines[i].mark.Some? ==>
      Label(lines[i].mark.value, CurAfter(lines, i), PlaceAfter(lines, i), i) in LabelsOf(lines, n)
  {
    hide CurAfter, PlaceAfter;
    if n > 0 {
      LabelsExactly(lines, n - 1);
    }
  }

  lemma {:induction false} UpdatedSame(labels: seq<Label>, line: nat, offset: nat)
    requires forall k :: 0 <= k < |labels| && labels[k].line == line ==> labels[k].offset == offset
    ensures Updated(labels, line, offset) == labels
  {
    if labels != [] && labels[0].line != line {
      UpdatedSame(labels[1..], line, offset);
    }
  }

  /** The first label of the line is changed, if there is one. */
  lemma {:induction false} UpdatedIs(labels: seq<Label>, line: nat, offset: nat, k: nat)
    requires k <= |labels| && (forall j :: 0 <= j < k ==> labels[j].line != line)
    requires k < |labels| ==> labels[k].line == line
    ensures Updated(labels, line, offset) == if k < |labels| then labels[k := labels[k].(offset := offset)] else labels
  {
    if k > 0 {
      UpdatedIs(labels[1..], line, offset, k - 1);
      assert labels == [labels[0]] + labels[1..];
    }
  }

  lemma LabelsSame(s: State, lines: seq<Line>, n: nat)
    requires n < |lines| && s.labels == LabelsOf(lines, |lines|) && Here(s) == PlaceAfter(lines, n)
    ensures Labelled(s, lines[n].mark, n, 2).labels == s.labels
  {
    hide LabelsOf, CurAfter, PlaceAfter, Here;
    LabelsExactly(lines, |lines|);
    forall k | 0 <= k < |s.labels| && s.labels[k].line == n ensures s.labels[k].offset == PlaceAfter(lines, n) {
      assert LabelAt(lines, s.labels[k]);
    }
    UpdatedSame(s.labels, n, Here(s));
  }

  /** The second pass writes the offsets that are there already. */
  lemma {:induction false} SecondLabels(lines: seq<Line>, n: nat)
    requires n <= |lines|
    ensures SecondPass(lines, n).labels == LabelsOf(lines, |lines|)
  {
    hide SecondPass, FirstPass, Step, LabelsOf, Here, PlaceAfter, CurAfter, Labelled;
    if n == 0 {
      FirstResults(lines);
    } else {
      SecondLabels(lines, n - 1);
      SecondStep(lines, n - 1);
      StepLabels(SecondPass(lines, n - 1), lines[n - 1], n - 1, 2);
      LabelsSame(SecondPass(lines, n - 1), lines, n - 1);
    }
  }

  /** The second pass starts with the tables of the first. */
  lemma FirstResults(lines: seq<Line>)
    ensures SecondPass(lines, 0) == Begin(FirstPass(lines))
    ensures FirstPass(lines).labels == LabelsOf(lines, |lines|)
    ensures FirstPass(lines).aligns == AlignsOf(lines, |lines|)
  {
    hide LabelsOf, AlignsOf, Step;
    FirstLabels(lines, |lines|);
    FirstAligns(lines, |lines|);
    RunNone(Begin(FirstPass(lines)), lines, 2);
    hide Run;
  }

  lemma RunNone(s: State, lines: seq<Line>, pass: nat)
    ensures Run(s, lines, 0, pass) == s
  {
    hide Step;
  }

  // ----- Symbols and alignments -----

  lemma {:induction false} RunTable(s: State, lines: seq<Line>, n: nat, pass: nat)
    requires n <= |lines|
    ensures Run(Begin(s), lines, n, pass).table == ApplyAll(s.table, TouchesOf(lines, n))
  {
    hide Step, Here, LineTouches, PlaceAfter, CurAfter, ApplyAll;
    if n == 0 {
      ApplyNone(s.table);
    } else {
      RunTable(s, lines, n - 1, pass);
      RunPlace(s, lines, n - 1, pass);
      StepLabels(Run(Begin(s), lines, n - 1, pass), lines[n - 1], n - 1, pass);
      ApplyAppend(s.table, TouchesOf(lines, n - 1), TouchesAt(lines, n - 1));
    }
  }

  lemma {:induction false} TouchesPrefix(lines: seq<Line>, n: nat, m: nat)
    requires n <= m <= |lines|
    ensures TouchesOf(lines, n) <= TouchesOf(lines, m)
    decreases m
  {
    hide TouchesAt;
    if n < m { TouchesPrefix(lines, n, m - 1); }
  }

  /** Both passes end with the same symbols in the same order, and the second one adds none. */
  lemma SymbolsAgree(lines: seq<Line>, n: nat)
    requires n <= |lines|
    ensures Final(lines).table == FirstPass(lines).table == ApplyAll(EMPTY, TouchesOf(lines, |lines|))
    ensures SecondPass(lines, n).table.names == Final(lines).table.names
  {
    hide Run, TouchesOf, ApplyAll;
    var us := TouchesOf(lines, |lines|);
    RunTable(BLANK, lines, |lines|, 1);
    RunTable(FirstPass(lines), lines, |lines|, 2);
    RunTable(FirstPass(lines), lines, n, 2);
    Idempotent(EMPTY, us);
    TouchesPrefix(lines, n, |lines|);
    assert us[..|TouchesOf(lines, n)|] == TouchesOf(lines, n);
    SecondTime(EMPTY, us, |TouchesOf(lines, n)|);
  }

  lemma StepAligns(s: State, l: Line, line: nat, pass: nat)
    ensures Step(s, l, line, pass).aligns == if l.stmt.Align? then Raised(s.aligns, s.cur, l.stmt.to) else s.aligns
  {
    hide BytesOf, ToFixups, Updated, LineTouches, ApplyAll;
  }

  lemma {:induction false} FirstAligns(lines: seq<Line>, n: nat)
    requires n <= |lines|
    ensures Run(Begin(BLANK), lines, n, 1).aligns == AlignsOf(lines, n)
  {
    hide Step, Here;
    if n > 0 {
      FirstAligns(lines, n - 1);
      RunPlace(BLANK, lines, n - 1, 1);
      StepAligns(Run(Begin(BLANK), lines, n - 1, 1), lines[n - 1], n - 1, 1);
    }
  }

  /** The alignment of a section only grows, and covers every directive in it. */
  lemma {:induction false} AlignsCover(lines: seq<Line>, i: nat, n: nat, sec: nat)
    requires i <= n <= |lines|
    ensures AlignIn(AlignsOf(lines, i), sec) <= AlignIn(AlignsOf(lines, n), sec)
    ensures i < n && lines[i].stmt.Align? ==> lines[i].stmt.to <= AlignIn(AlignsOf(lines, n), CurAfter(lines, i))
    decreases n
  {
    if i < n {
      AlignsCover(lines, i, n - 1, sec);
    }
  }

  /** The second pass finds every alignment large enough. */
  lemma {:induction false} SecondAligns(lines: seq<Line>, n: nat)
    requires n <= |lines|
    ensures SecondPass(lines, n).aligns == AlignsOf(lines, |lines|)
  {
    hide SecondPass, FirstPass, Step, AlignsOf, Here, CurAfter;
    if n == 0 {
      FirstResults(lines);
    } else {
      SecondAligns(lines, n - 1);
      SecondStep(lines, n - 1);
      StepAligns(SecondPass(lines, n - 1), lines[n - 1], n - 1, 2);
      AlignsCover(lines, n - 1, |lines|, 1);
    }
  }

  // ----- Numeric jumps -----

  /** The line that a numeric reference from line i means: the nearest one before it, or behind
      it, that has the label and is in the same section. */
  ghost predicate Means(lines: seq<Line>, i: nat, dest: string, back: bool, m: nat) {
    && Candidate(lines, i, dest, back, m)
    && forall j: nat :: Candidate(lines, i, dest, back, j) ==> if back then j <= m else m <= j
  }

  ghost predicate Candidate(lines: seq<Line>, i: nat, dest: string, back: bool, m: nat) {
    && i < |lines| && m < |lines| && lines[m].mark == Some(dest) && CurAfter(lines, m) == CurAfter(lines, i)
    && (if back then m < i else i < m < 999999)
  }

  lemma NearestMeans(lines: seq<Line>, i: nat, dest: string, back: bool)
    requires i < |lines|
    ensures var labels := LabelsOf(lines, |lines|);
      var k := Nearest(labels, |labels|, dest, CurAfter(lines, i), i, back);
      if k.None? then forall m: nat :: !Candidate(lines, i, dest, back, m)
      else
        var l := labels[k.value];
        Means(lines, i, dest, back, l.line) && l.offset == PlaceAfter(lines, l.line)
  {
    var labels := LabelsOf(lines, |lines|);
    LabelsExactly(lines, |lines|);
    var k := Nearest(labels, |labels|, dest, CurAfter(lines, i), i, back);
    hide LabelsOf, Nearest, CurAfter, PlaceAfter;
    forall m: nat | Candidate(lines, i, dest, back, m)
      ensures k.Some? && (if back then m <= labels[k.value].line else labels[k.value].line <= m)
    {
      var l := Label(dest, CurAfter(lines, m), PlaceAfter(lines, m), m);
      assert l in labels;
      var j :| 0 <= j < |labels| && labels[j] == l;
      assert Matches(labels[j], dest, CurAfter(lines, i), i, back);
    }
    if k.Some? {
      assert LabelAt(lines, labels[k.value]);
    }
  }

  /** Where a short jump leads whose displacement byte lies at offset at + 1. */
  function JumpTarget(at: int, b: Byte): int { at + 2 + Signed8(b) }

  /** Whether a signed byte reaches from a jump at one offset to another offset. */
  predicate InReach(at: int, to: int) { -128 <= to - (at + 2) <= 127 }

  lemma ReachExactly(at: int, to: int)
    ensures JumpTarget(at, ByteOf(to - (at + 2))) == to <==> InReach(at, to)
  {
    var d := to - (at + 2);
    if -128 <= d <= 127 { ByteRoundTrip(d); }
  }

  /** The state in which line i emits in the second pass. */
  function At(lines: seq<Line>, i: nat): State
    requires i < |lines|
  {
    Defined(SecondPass(lines, i), lines[i], i, 2)
  }

  lemma AtPlace(lines: seq<Line>, i: nat)
    requires i < |lines|
    ensures var t := At(lines, i);
      && Here(t) == PlaceAfter(lines, i) && t.cur == CurAfter(lines, i) && t.labels == LabelsOf(lines, |lines|)
      && t.table.names == Final(lines).table.names
  {
    hide SecondPass, Step, LabelsOf, Here, PlaceAfter, CurAfter, Labelled, Final, LineTouches, ApplyAll;
    var s := SecondPass(lines, i);
    SecondStep(lines, i);
    SecondLabels(lines, i);
    LabelsSame(s, lines, i);
    DefinedPlace(s, lines[i], i, 2);
    StepLabels(s, lines[i], i, 2);
    SymbolsAgree(lines, i + 1);
  }

  /** In the second pass a numeric jump leads to the place of the line it means if and only if a
      signed byte reaches it; without such a line it leads behind itself. */
  lemma JumpLands(lines: seq<Line>, i: nat, code: Byte, dest: string, back: bool, m: nat)
    requires i < |lines| && lines[i].stmt == ShortJump(code, dest, back)
    ensures var b := JumpByte(At(lines, i), dest, back, i);
            var at := PlaceAfter(lines, i);
      && BytesOf(At(lines, i), lines[i].stmt, i) == [code, b]
      && (Means(lines, i, dest, back, m) ==>
            (JumpTarget(at, b) == PlaceAfter(lines, m) <==> InReach(at, PlaceAfter(lines, m))))
      && ((forall j: nat :: !Candidate(lines, i, dest, back, j)) ==> JumpTarget(at, b) == at + 2)
  {
    hide At, LabelsOf, PlaceAfter, CurAfter, Means, Candidate, JumpTarget, InReach, Here, JumpByte;
    AtPlace(lines, i);
    JumpLeads(lines, At(lines, i), i, dest, back, m);
  }

  lemma JumpLeads(lines: seq<Line>, t: State, i: nat, dest: string, back: bool, m: nat)
    requires i < |lines| && t.labels == LabelsOf(lines, |lines|)
    requires t.cur == CurAfter(lines, i) && Here(t) == PlaceAfter(lines, i)
    ensures var to := JumpTarget(PlaceAfter(lines, i), JumpByte(t, dest, back, i));
      && (Means(lines, i, dest, back, m) ==> (to == PlaceAfter(lines, m) <==> InReach(Here(t), PlaceAfter(lines, m))))
      && ((forall j: nat :: !Candidate(lines, i, dest, back, j)) ==> to == PlaceAfter(lines, i) + 2)
  {
    hide LabelsOf, Nearest, PlaceAfter, CurAfter, Means, Candidate, JumpTarget, InReach, Here, ByteOf, JumpByte;
    NearestMeans(lines, i, dest, back);
    JumpByteIs(t, dest, back, i);
    var k := Nearest(t.labels, |t.labels|, dest, t.cur, i, back);
    if k.Some? {
      MeansUnique(lines, i, dest, back, t.labels[k.value].line);
      ReachExactly(Here(t), t.labels[k.value].offset);
    } else {
      JumpNowhere(Here(t));
      if Means(lines, i, dest, back, m) { MeansUnique(lines, i, dest, back, m); }
    }
  }

  lemma JumpByteIs(t: State, dest: string, back: bool, line: nat)
    ensures var k := Nearest(t.labels, |t.labels|, dest, t.cur, line, back);
      JumpByte(t, dest, back, line) == if k.None? then 0 else ByteOf(t.labels[k.value].offset - (Here(t) + 2))
  {
    hide Nearest, Here;
  }

  lemma JumpNowhere(at: nat)
    ensures JumpTarget(at, 0) == at + 2
  {
  }

  lemma MeansUnique(lines: seq<Line>, i: nat, dest: string, back: bool, m: nat)
    requires Means(lines, i, dest, back, m)
    ensures Candidate(lines, i, dest, back, m)
    ensures forall j: nat :: Means(lines, i, dest, back, j) ==> j == m
  {
    hide CurAfter;
  }

  /** A label on the line of the jump itself is not meant: this loop falls through. */
  lemma SameLineFallsThrough()
    ensures var lines := [Line(Some("1"), ShortJump(0xEB, "1", true))];
      JumpTarget(0, JumpByte(At(lines, 0), "1", true, 0)) == 2
  {
    hide JumpByte, At, JumpTarget, BytesOf;
    var lines := [Line(Some("1"), ShortJump(0xEB, "1", true))];
    JumpLands(lines, 0, 0xEB, "1", true, 0);
  }

  /** A jump over 128 bytes of data does not reach its label: this one leads backwards. */
  lemma FarJumpMisses()
    ensures var lines := [Line(None, ShortJump(0xEB, "1", false)), Line(None, Align(256)), Line(Some("1"), Emit([]))];
      && Means(lines, 0, "1", false, 2) && PlaceAfter(lines, 2) == 256
      && JumpTarget(0, JumpByte(At(lines, 0), "1", false, 0)) != 256
  {
    var lines := [Line(None, ShortJump(0xEB, "1", false)), Line(None, Align(256)), Line(Some("1"), Emit([]))];
    assert CurAfter(lines, 0) == CurAfter(lines, 1) == CurAfter(lines, 2) == 1;
    assert SizeAfter(lines, 1, 1) == 2;
    assert SizeAfter(lines, 2, 1) == 256;
    assert Candidate(lines, 0, "1", false, 2);
    hide JumpByte, At, JumpTarget, BytesOf;
    JumpLands(lines, 0, 0xEB, "1", false, 2);
  }

  // ----- What is in the object file -----

  lemma StepEmits(s: State, l: Line, line: nat, sec: nat)
    ensures var t := Step(s, l, line, 2); var d := Defined(s, l, line, 2);
      && CodeOf(t, sec) == CodeOf(s, sec) + (if sec == s.cur then BytesOf(d, l.stmt, line) else [])
      && t.relocs == s.relocs + ToFixups(d.table.names, s.cur, SitesOf(l.stmt, Here(s)))
  {
    hide Defined, ToFixups, PartsBytes, PartsSites, Padding, JumpByte;
    DefinedPlace(s, l, line, 2);
    if l.stmt.Switch? {
      NoFixups(Defined(s, l, line, 2).table.names, s.cur);
    }
  }

  lemma NoFixups(names: seq<string>, sec: nat)
    ensures ToFixups(names, sec, []) == []
  {
  }

  lemma {:induction false} SecondGrows(lines: seq<Line>, i: nat, n: nat, sec: nat)
    requires i <= n <= |lines|
    ensures CodeOf(SecondPass(lines, i), sec) <= CodeOf(SecondPass(lines, n), sec)
    decreases n
  {
    hide SecondPass, Step, CodeOf, Here, PlaceAfter, CurAfter, BytesOf, Defined, ToFixups;
    if i < n {
      SecondGrows(lines, i, n - 1, sec);
      SecondStep(lines, n - 1);
      StepEmits(SecondPass(lines, n - 1), lines[n - 1], n - 1, sec);
    }
  }

  /** The final code holds, at the place of each line, what the line emitted in the second pass. */
  lemma LineEmitted(lines: seq<Line>, i: nat)
    requires i < |lines|
    ensures var sec, at, b := CurAfter(lines, i), PlaceAfter(lines, i), BytesOf(At(lines, i), lines[i].stmt, i);
      && at + |b| <= |CodeOf(Final(lines), sec)|
      && CodeOf(Final(lines), sec)[at..at + |b|] == b
      && |b| == SizeAt(lines[i].stmt, at)
  {
    hide SecondPass, Step, CodeOf, BytesOf, Defined, CurAfter, PlaceAfter, SizeAt, ToFixups, SitesOf;
    var s := SecondPass(lines, i);
    SecondStep(lines, i);
    StepEmits(s, lines[i], i, s.cur);
    SecondGrows(lines, i + 1, |lines|, s.cur);
    HereIs(s);
    SliceOfPrefix(CodeOf(s, s.cur), BytesOf(At(lines, i), lines[i].stmt, i), CodeOf(Final(lines), s.cur));
    AtPlace(lines, i);
    SizeIs(At(lines, i), lines[i].stmt, i);
  }

  lemma HereIs(s: State)
    ensures Here(s) == |CodeOf(s, s.cur)|
  {
  }

  lemma SliceOfPrefix(a: seq<Byte>, b: seq<Byte>, c: seq<Byte>)
    requires a + b <= c
    ensures |a| + |b| <= |c| && c[|a|..|a| + |b|] == b
  {
    assert c[|a|..|a| + |b|] == (a + b)[|a|..];
  }

  /** The relocation table is that of the lines, in their order. */
  lemma {:induction false} SecondRelocs(lines: seq<Line>, n: nat)
    requires n <= |lines|
    ensures SecondPass(lines, n).relocs == FixupsOf(Final(lines).table.names, lines, n)
  {
    hide SecondPass, FirstPass, Step, Final, ToFixups, SitesOf, Here, PlaceAfter, CurAfter, Defined, BytesOf;
    if n == 0 {
      FirstResults(lines);
    } else {
      SecondRelocs(lines, n - 1);
      SecondStep(lines, n - 1);
      StepEmits(SecondPass(lines, n - 1), lines[n - 1], n - 1, 1);
      AtPlace(lines, n - 1);
    }
  }

  // ----- Where the symbols go -----

  /** The places of a part lie inside it, four bytes each. */
  lemma PartSitesInside(p: Part, at: nat)
    ensures forall x :: x in PartSites(p, at) ==> at <= x.offset && x.offset + 4 <= at + |PartBytes(p)|
    ensures |PartSites(p, at)| <= 1
  {
  }

  lemma PartsJoin(parts: seq<Part>, j: nat)
    requires j < |parts|
    ensures PartsBytes(parts[..j + 1]) == PartsBytes(parts[..j]) + PartBytes(parts[j])
    ensures PartOffset(parts, j + 1) == PartOffset(parts, j) + |PartBytes(parts[j])|
  {
    assert parts[..j + 1][..j] == parts[..j];
    hide PartBytes;
  }

  lemma {:induction false} PartsPrefix(parts: seq<Part>, j: nat)
    requires j <= |parts|
    ensures PartsBytes(parts[..j]) <= PartsBytes(parts)
  {
    hide PartBytes;
    if j == |parts| {
      assert parts[..j] == parts;
    } else {
      var n := |parts| - 1;
      PartsPrefix(parts[..n], j);
      assert parts[..n][..j] == parts[..j];
    }
  }

  /** Part j in the bytes of its statement. */
  lemma PartPlaced(parts: seq<Part>, j: nat)
    requires j < |parts|
    ensures var o := PartOffset(parts, j); var b := PartBytes(parts[j]);
      o + |b| <= |PartsBytes(parts)| && PartsBytes(parts)[o..o + |b|] == b
  {
    PartsJoin(parts, j);
    PartsPrefix(parts, j + 1);
    hide PartBytes, PartsBytes;
    SliceOfPrefix(PartsBytes(parts[..j]), PartBytes(parts[j]), PartsBytes(parts));
  }

  /** Later parts lie behind. */
  lemma {:induction false} PartsOrder(parts: seq<Part>, j: nat, k: nat)
    requires j < k <= |parts|
    ensures PartOffset(parts, j) + |PartBytes(parts[j])| <= PartOffset(parts, k)
    decreases k
  {
    hide PartBytes, PartOffset;
    PartsJoin(parts, k - 1);
    if j < k - 1 { PartsOrder(parts, j, k - 1); }
  }

  /** Every place of a statement belongs to one of its parts, and is a place of that part. */
  lemma {:induction false} SiteOwner(parts: seq<Part>, at: nat, k: nat) returns (j: nat)
    requires k < |PartsSites(parts, at)|
    ensures j < |parts| && PartsSites(parts, at)[k] in PartSites(parts[j], at + PartOffset(parts, j))
  {
    hide PartSites, PartBytes, PartsBytes;
    var n := |parts| - 1;
    var front := parts[..n];
    if k < |PartsSites(front, at)| {
      j := SiteOwner(front, at, k);
      assert front[..j] == parts[..j];
    } else {
      j := n;
    }
  }

  lemma {:induction false} OwnedSite(parts: seq<Part>, at: nat, j: nat)
    requires j < |parts|
    ensures forall x :: x in PartSites(parts[j], at + PartOffset(parts, j)) ==> x in PartsSites(parts, at)
  {
    hide PartSites, PartBytes, PartsBytes;
    var n := |parts| - 1;
    if j < n {
      var front := parts[..n];
      OwnedSite(front, at, j);
      assert front[..j] == parts[..j];
    }
  }

  /** The places of a statement lie inside it, in order and apart. */
  lemma {:induction false} SitesInside(parts: seq<Part>, at: nat)
    ensures forall k :: 0 <= k < |PartsSites(parts, at)| ==>
      at <= PartsSites(parts, at)[k].offset && PartsSites(parts, at)[k].offset + 4 <= at + |PartsBytes(parts)|
    ensures forall k, l :: 0 <= k < l < |PartsSites(parts, at)| ==>
      PartsSites(parts, at)[k].offset + 4 <= PartsSites(parts, at)[l].offset
  {
    hide PartSites, PartBytes;
    if parts != [] {
      var n := |parts| - 1;
      SitesInside(parts[..n], at);
      PartSitesInside(parts[n], at + |PartsBytes(parts[..n])|);
    }
  }

  lemma StmtSitesInside(stmt: Stmt, at: nat)
    ensures forall k :: 0 <= k < |SitesOf(stmt, at)| ==>
      at <= SitesOf(stmt, at)[k].offset && SitesOf(stmt, at)[k].offset + 4 <= at + SizeAt(stmt, at)
    ensures forall k, l :: 0 <= k < l < |SitesOf(stmt, at)| ==>
      SitesOf(stmt, at)[k].offset + 4 <= SitesOf(stmt, at)[l].offset
  {
    hide PartsSites, PartsBytes;
    if stmt.Emit? { SitesInside(stmt.parts, at); }
  }

  /** Lines of one section follow each other. */
  lemma {:induction false} SizeGrows(lines: seq<Line>, i: nat, n: nat, sec: nat)
    requires i <= n <= |lines|
    ensures SizeAfter(lines, i, sec) <= SizeAfter(lines, n, sec)
    ensures i < n && CurAfter(lines, i) == sec ==>
      PlaceAfter(lines, i) + SizeAt(lines[i].stmt, PlaceAfter(lines, i)) <= SizeAfter(lines, n, sec)
    decreases n
  {
    hide SizeAt;
    if i < n { SizeGrows(lines, i, n - 1, sec); }
  }

  lemma PlaceIs(lines: seq<Line>, n: nat)
    requires n <= |lines|
    ensures PlaceAfter(lines, n) == SizeAfter(lines, n, CurAfter(lines, n))
  {
  }

  /** The relocations of a section lie inside its code, in order and apart. */
  ghost predicate Spaced(fs: seq<Fixup>) {
    forall k, l :: 0 <= k < l < |fs| && fs[k].section == fs[l].section ==> fs[k].offset + 4 <= fs[l].offset
  }

  lemma {:induction false} FixupsSpaced(names: seq<string>, lines: seq<Line>, n: nat)
    requires n <= |lines|
    ensures Spaced(FixupsOf(names, lines, n))
    ensures forall k :: 0 <= k < |FixupsOf(names, lines, n)| ==>
      var f := FixupsOf(names, lines, n)[k]; f.offset + 4 <= SizeAfter(lines, n, f.section)
  {
    hide SizeAt, SitesOf, CurAfter;
    if n > 0 {
      FixupsSpaced(names, lines, n - 1);
      StmtSitesInside(lines[n - 1].stmt, PlaceAfter(lines, n - 1));
      SizeGrows(lines, n - 1, n, CurAfter(lines, n - 1));
      hide PlaceAfter, SizeAfter;
      var fs, gs := FixupsOf(names, lines, n - 1), FixupsAt(names, lines, n - 1);
      forall k | 0 <= k < |fs| ensures fs[k].offset + 4 <= SizeAfter(lines, n, fs[k].section) {
        SizeGrows(lines, n - 1, n, fs[k].section);
      }
      PlaceIs(lines, n - 1);
    }
  }

  /** Where relocation k of the table comes from. */
  lemma {:induction false} FixupFrom(names: seq<string>, lines: seq<Line>, n: nat, k: nat) returns (i: nat, x: nat)
    requires n <= |lines| && k < |FixupsOf(names, lines, n)|
    ensures i < n && x < |SitesOf(lines[i].stmt, PlaceAfter(lines, i))|
    ensures FixupsOf(names, lines, n)[k] ==
      ToFixup(names, CurAfter(lines, i), SitesOf(lines[i].stmt, PlaceAfter(lines, i))[x])
  {
    hide SitesOf, CurAfter, PlaceAfter, ToFixup;
    var fs := FixupsOf(names, lines, n - 1);
    if k < |fs| {
      i, x := FixupFrom(names, lines, n - 1, k);
    } else {
      i, x := n - 1, k - |fs|;
    }
  }

  lemma {:induction false} FixupListed(names: seq<string>, lines: seq<Line>, n: nat, i: nat, x: nat)
    requires i < n <= |lines| && x < |SitesOf(lines[i].stmt, PlaceAfter(lines, i))|
    ensures ToFixup(names, CurAfter(lines, i), SitesOf(lines[i].stmt, PlaceAfter(lines, i))[x])
              in FixupsOf(names, lines, n)
  {
    hide SitesOf, CurAfter, PlaceAfter, ToFixup;
    if i < n - 1 {
      FixupListed(names, lines, n - 1, i, x);
    } else {
      var f := ToFixup(names, CurAfter(lines, i), SitesOf(lines[i].stmt, PlaceAfter(lines, i))[x]);
      assert FixupsAt(names, lines, i)[x] == f;
      assert f in FixupsAt(names, lines, i);
    }
  }

  /** Whether a relocation acts on the bytes [lo, hi) of a section. */
  predicate Acts(f: Fixup, sec: nat, lo: nat, hi: nat) { f.section == sec && f.offset < hi && lo < f.offset + 4 }

  /** A stretch of line i that its own places avoid is avoided by the whole table. */
  lemma NoFixupIn(names: seq<string>, lines: seq<Line>, k: nat, i: nat, lo: nat, hi: nat)
    requires i < |lines| && k < |FixupsOf(names, lines, |lines|)|
    requires var at := PlaceAfter(lines, i); at <= lo <= hi <= at + SizeAt(lines[i].stmt, at)
    requires forall x :: x in SitesOf(lines[i].stmt, PlaceAfter(lines, i)) ==> x.offset + 4 <= lo || hi <= x.offset
    ensures !Acts(FixupsOf(names, lines, |lines|)[k], CurAfter(lines, i), lo, hi)
  {
    hide SitesOf, CurAfter, PlaceAfter, SizeAt, FixupsOf;
    var j, x := FixupFrom(names, lines, |lines|, k);
    var y := SitesOf(lines[j].stmt, PlaceAfter(lines, j))[x];
    StmtSitesInside(lines[j].stmt, PlaceAfter(lines, j));
    if j == i {
      assert y in SitesOf(lines[i].stmt, PlaceAfter(lines, i));
    } else if CurAfter(lines, j) == CurAfter(lines, i) {
      LinesApart(lines, i, j);
    }
  }

  lemma LinesApart(lines: seq<Line>, i: nat, j: nat)
    requires i < |lines| && j < |lines| && i != j && CurAfter(lines, i) == CurAfter(lines, j)
    ensures var a, b := PlaceAfter(lines, i), PlaceAfter(lines, j);
      a + SizeAt(lines[i].stmt, a) <= b || b + SizeAt(lines[j].stmt, b) <= a
  {
    hide SizeAt, CurAfter;
    if i < j {
      SizeGrows(lines, i, j, CurAfter(lines, j));
    } else {
      SizeGrows(lines, j, i, CurAfter(lines, i));
    }
  }

  // ----- Symbols of the object file -----

  /** A line that gives a name a value. */
  predicate Defines(l: Line, name: string) {
    || l.mark == Some(name)
    || (l.stmt.Equate? && l.stmt.name == name)
    || (l.stmt.Common? && l.stmt.name == name)
  }

  /** Line m has the label, and nothing gives the name a value behind it. */
  ghost predicate LabelledLast(lines: seq<Line>, name: string, m: nat) {
    && m < |lines| && lines[m].mark == Some(name) && !Defines(lines[m].(mark := None), name)
    && (forall j :: m < j < |lines| ==> !Defines(lines[j], name))
  }

  lemma LineDef(l: Line, sec: nat, at: nat, name: string)
    ensures LastDef(LineTouches(l, sec, at), name).Some? <==> Defines(l, name)
    ensures l.mark == Some(name) && !Defines(l.(mark := None), name) ==>
      LastDef(LineTouches(l, sec, at), name) == Some((In(sec), at))
  {
    LastDefAppend(MarkTouches(l.mark, sec, at), StmtTouches(l.stmt), name);
    StmtDef(l.stmt, name);
    hide StmtTouches;
    var ts := MarkTouches(l.mark, sec, at);
    if l.mark.Some? { assert ts[..0] == []; }
  }

  lemma StmtDef(stmt: Stmt, name: string)
    ensures LastDef(StmtTouches(stmt), name).Some? <==> Defines(Line(None, stmt), name)
  {
    hide PartsSites;
    if stmt.Emit? {
      MentionsOnly(PartsSites(stmt.parts, 0), name);
    } else {
      var ts := StmtTouches(stmt);
      if ts != [] { assert ts[..0] == []; }
    }
  }

  lemma {:induction false} MentionsOnly(sites: seq<Site>, name: string)
    ensures LastDef(SiteTouches(sites), name) == None
  {
    if sites != [] {
      var n := |sites| - 1;
      MentionsOnly(sites[..n], name);
      assert SiteTouches(sites)[..n] == SiteTouches(sites[..n]);
    }
  }

  lemma {:induction false} LastDefIs(lines: seq<Line>, n: nat, name: string, m: nat)
    requires LabelledLast(lines, name, m) && m < n <= |lines|
    ensures LastDef(TouchesOf(lines, n), name) == Some((In(CurAfter(lines, m)), PlaceAfter(lines, m)))
    decreases n
  {
    hide LineTouches, CurAfter, PlaceAfter, LastDef;
    LastDefAppend(TouchesOf(lines, n - 1), TouchesAt(lines, n - 1), name);
    LineDef(lines[n - 1], CurAfter(lines, n - 1), PlaceAfter(lines, n - 1), name);
    if m < n - 1 {
      LastDefIs(lines, n - 1, name, m);
    }
  }

  /** The symbol of a label is the place of the last line that has it. */
  lemma SymbolPlace(lines: seq<Line>, name: string, m: nat)
    requires LabelledLast(lines, name, m)
    ensures var x := Look(Final(lines).table, name);
      && name in Final(lines).table.syms
      && x.home == In(CurAfter(lines, m)) && x.value == PlaceAfter(lines, m)
  {
    hide Final, TouchesOf, CurAfter, PlaceAfter, LastDef, ApplyAll, FirstPass;
    var us := TouchesOf(lines, |lines|);
    SymbolsAgree(lines, |lines|);
    ApplyLook(EMPTY, us, name);
    LastDefIs(lines, |lines|, name, m);
    if !Mentions(us, name) { NoDef(us, name); }
  }

  lemma {:induction false} NoDef(us: seq<Touch>, name: string)
    requires forall i :: 0 <= i < |us| ==> us[i].name != name
    ensures LastDef(us, name) == None
  {
    if us != [] {
      NoDef(us[..|us| - 1], name);
    }
  }

  /** The table of the object file is in order. */
  lemma FinalTable(lines: seq<Line>)
    ensures TableOk(Final(lines).table)
  {
    hide Final, FirstPass, ApplyAll, TouchesOf;
    SymbolsAgree(lines, |lines|);
    ApplyOk(EMPTY, TouchesOf(lines, |lines|));
  }

  /** A relocation has the index of the name it was written with. */
  lemma SiteNamed(lines: seq<Line>, i: nat, k: nat)
    requires i < |lines| && k < |SitesOf(lines[i].stmt, PlaceAfter(lines, i))|
    ensures var names := Final(lines).table.names; var x := SitesOf(lines[i].stmt, PlaceAfter(lines, i))[k];
      x.sym in names && names[ToFixup(names, CurAfter(lines, i), x).sym] == x.sym
  {
    hide Final, FirstPass, ApplyAll, TouchesOf, SitesOf, PlaceAfter, CurAfter;
    var us := TouchesOf(lines, |lines|);
    var x := SitesOf(lines[i].stmt, PlaceAfter(lines, i))[k];
    SymbolsAgree(lines, |lines|);
    FinalTable(lines);
    LineMentions(lines[i], CurAfter(lines, i), PlaceAfter(lines, i), k);
    MentionedIn(lines, |lines|, i, x.sym);
    ApplyLook(EMPTY, us, x.sym);
  }

  lemma LineMentions(l: Line, sec: nat, at: nat, k: nat)
    requires k < |SitesOf(l.stmt, at)|
    ensures Mentions(LineTouches(l, sec, at), SitesOf(l.stmt, at)[k].sym)
  {
    hide PartsSites;
    SameNames(l.stmt.parts, 0, at);
    var ts := SiteTouches(PartsSites(l.stmt.parts, 0));
    var us := LineTouches(l, sec, at);
    assert us[|us| - |ts| + k] == ts[k];
  }

  /** The names of the places do not depend on where they are. */
  lemma {:induction false} SameNames(parts: seq<Part>, a: nat, b: nat)
    ensures |PartsSites(parts, a)| == |PartsSites(parts, b)|
    ensures forall k :: 0 <= k < |PartsSites(parts, a)| ==> PartsSites(parts, a)[k].sym == PartsSites(parts, b)[k].sym
  {
    if parts != [] {
      SameNames(parts[..|parts| - 1], a, b);
      hide PartBytes;
    }
  }

  lemma {:induction false} MentionedIn(lines: seq<Line>, n: nat, i: nat, name: string)
    requires i < n <= |lines| && Mentions(TouchesAt(lines, i), name)
    ensures Mentions(TouchesOf(lines, n), name)
  {
    hide TouchesAt;
    var a, b := TouchesOf(lines, n - 1), TouchesAt(lines, n - 1);
    if i < n - 1 {
      MentionedIn(lines, n - 1, i, name);
      var k :| 0 <= k < |a| && a[k].name == name;
      assert (a + b)[k].name == name;
    } else {
      var k :| 0 <= k < |b| && b[k].name == name;
      assert (a + b)[|a| + k].name == name;
    }
  }

  // ----- The driver -----

  /** Relocations that are there keep their indices when names are appended. */
  lemma FixupsKept(names: seq<string>, names': seq<string>, sec: nat, sites: seq<Site>)
    requires names <= names' && forall i :: 0 <= i < |sites| ==> sites[i].sym in names
    ensures ToFixups(names', sec, sites) == ToFixups(names, sec, sites)
  {
    forall i | 0 <= i < |sites| ensures ToFixup(names', sec, sites[i]) == ToFixup(names, sec, sites[i]) {
      IndexKept(names, names', sites[i].sym);
    }
  }

  /** The loop over the parts of a statement: j of them are emitted. */
  ghost predicate Emitting(s: State, s': State, parts: seq<Part>, j: nat, pass: nat) {
    && j <= |parts| && TableOk(s'.table)
    && var sites := PartsSites(parts[..j], Here(s));
    && (forall i :: 0 <= i < |sites| ==> sites[i].sym in s'.table.names)
    && s' == s.(code := s.code[s.cur := CodeOf(s, s.cur) + PartsBytes(parts[..j])],
                table := ApplyAll(s.table, SiteTouches(sites)),
                relocs := if pass == 2 then s.relocs + ToFixups(s'.table.names, s.cur, sites) else s.relocs)
  }

  /** One part: find its symbol, note the relocation, emit its bytes. */
  function EmitPart(s: State, p: Part, pass: nat): State {
    var sites := PartSites(p, Here(s));
    var table := ApplyAll(s.table, SiteTouches(sites));
    s.(code := s.code[s.cur := CodeOf(s, s.cur) + PartBytes(p)],
       table := table,
       relocs := if pass == 2 then s.relocs + ToFixups(table.names, s.cur, sites) else s.relocs)
  }

  lemma EmittingStep(s: State, s': State, parts: seq<Part>, j: nat, pass: nat)
    requires Emitting(s, s', parts, j, pass) && j < |parts|
    ensures Emitting(s, EmitPart(s', parts[j], pass), parts, j + 1, pass)
  {
    hide PartBytes, PartSites, ToFixup, TableOk, ApplyAll;
    var a := PartsSites(parts[..j], Here(s));
    var b := PartSites(parts[j], Here(s'));
    var t := ApplyAll(s'.table, SiteTouches(b));
    PartsJoin(parts, j);
    assert parts[..j + 1][..j] == parts[..j];
    assert Here(s') == Here(s) + |PartsBytes(parts[..j])|;
    assert PartsSites(parts[..j + 1], Here(s)) == a + b;
    hide PartsSites, PartsBytes;
    assert SiteTouches(a + b) == SiteTouches(a) + SiteTouches(b);
    ApplyAppend(s.table, SiteTouches(a), SiteTouches(b));
    NamesGrow(s'.table, SiteTouches(b));
    ApplyOk(s'.table, SiteTouches(b));
    FixupsKept(s'.table.names, t.names, s.cur, a);
    assert ToFixups(t.names, s.cur, a + b) == ToFixups(t.names, s.cur, a) + ToFixups(t.names, s.cur, b);
    TouchedIn(s'.table, b);
    var front, last := PartsBytes(parts[..j]), PartBytes(parts[j]);
    assert CodeOf(s', s.cur) == CodeOf(s, s.cur) + front;
    assert CodeOf(s, s.cur) + front + last == CodeOf(s, s.cur) + (front + last);
    var fa, fb := ToFixups(t.names, s.cur, a), ToFixups(t.names, s.cur, b);
    assert s.relocs + fa + fb == s.relocs + (fa + fb);
  }

  lemma TouchedIn(t: Table, sites: seq<Site>)
    requires TableOk(t)
    ensures forall i :: 0 <= i < |sites| ==> sites[i].sym in ApplyAll(t, SiteTouches(sites)).names
  {
    hide ApplyAll;
    ApplyOk(t, SiteTouches(sites));
    forall i | 0 <= i < |sites| ensures sites[i].sym in ApplyAll(t, SiteTouches(sites)).names {
      ApplyLook(t, SiteTouches(sites), sites[i].sym);
      assert SiteTouches(sites)[i].name == sites[i].sym;
    }
  }

  lemma EmittingEnd(s: State, s': State, parts: seq<Part>, line: nat, pass: nat)
    requires Emitting(s, s', parts, |parts|, pass)
    ensures s' == EmitStmt(s.(table := ApplyAll(s.table, StmtTouches(Emit(parts)))), Emit(parts), line, pass)
  {
    assert parts[..|parts|] == parts;
    SameNames(parts, 0, Here(s));
    hide PartsSites, PartsBytes, ApplyAll, ToFixups;
    assert SiteTouches(PartsSites(parts, 0)) == SiteTouches(PartsSites(parts, Here(s)));
  }

  lemma EmittingBegin(s: State, parts: seq<Part>, pass: nat)
    requires TableOk(s.table)
    ensures Emitting(s, s.(code := s.code[s.cur := CodeOf(s, s.cur)]), parts, 0, pass)
  {
    assert parts[..0] == [];
    NoTouches(s.table, []);
    NoFixups(s.table.names, s.cur);
    assert CodeOf(s, s.cur) + [] == CodeOf(s, s.cur);
    assert s.relocs + [] == s.relocs;
  }

  class Assembler {
    var code: map<nat, seq<Byte>>
    var cur: nat
    var aligns: map<nat, nat>
    var labels: seq<Label>
    var table: Table
    var relocs: seq<Fixup>

    constructor ()
      ensures Now() == BLANK
    {
      code, cur, aligns, labels, table, relocs := map[], 1, map[], [], EMPTY, [];
    }

    ghost function Now(): State
      reads this
    {
      State(code, cur, aligns, labels, table, relocs)
    }

    method EmitBytes(bytes: seq<Byte>)
      modifies this`code
      ensures code == old(code)[cur := CodeOf(old(Now()), cur) + bytes]
    {
      code := code[cur := (if cur in code then code[cur] else []) + bytes];
    }

    method Size() returns (n: nat)
      ensures n == Here(Now())
    {
      n := if cur in code then |code[cur]| else 0;
    }

    /** find_or_add_symbol: the search from the front, and a new entry at the back. */
    method FindOrAdd(u: Touch) returns (idx: nat)
      requires TableOk(table)
      modifies this`table
      ensures table == Apply(old(table), u) && TableOk(table)
      ensures u.name in table.names && idx == IndexIn(table.names, u.name)
    {
      hide Overlay;
      idx := 0;
      while idx < |table.names| && table.names[idx] != u.name
        invariant 0 <= idx <= |table.names|
        invariant forall j :: 0 <= j < idx ==> table.names[j] != u.name
      {
        idx := idx + 1;
      }
      table := Apply(table, u);
    }

    /** A label: its symbol, and its entry in the table of labels. */
    method AddLabel(name: string, line: nat, pass: nat)
      requires TableOk(table)
      modifies this`labels, this`table
      ensures Now() == Labelled(old(Now()), Some(name), line, pass).(
        table := ApplyAll(old(table), MarkTouches(Some(name), cur, Here(old(Now())))))
      ensures TableOk(table)
    {
      hide Updated, TableOk;
      var here := Size();
      var u := Touch(name, Some((In(cur), here)), None, None);
      ApplyOne(table, u);
      var idx := FindOrAdd(u);
      if pass == 1 {
        labels := labels + [Label(name, cur, here, line)];
      } else {
        UpdateLabel(line, here);
      }
    }

    /** The loop that looks for the label of this line. */
    method UpdateLabel(line: nat, offset: nat)
      modifies this`labels
      ensures labels == Updated(old(labels), line, offset)
    {
      var k := 0;
      while k < |labels|
        invariant 0 <= k <= |labels| && labels == old(labels)
        invariant forall j :: 0 <= j < k ==> labels[j].line != line
      {
        if labels[k].line == line {
          UpdatedIs(labels, line, offset, k);
          labels := labels[k := labels[k].(offset := offset)];
          return;
        }
        k := k + 1;
      }
      UpdatedIs(labels, line, offset, k);
    }

    /** A jump to a numeric label. */
    method EmitJump(op: Byte, dest: string, back: bool, line: nat)
      modifies this`code
      ensures Now() == old(Now()).(code := code)
      ensures code == old(code)[cur := CodeOf(old(Now()), cur) + [op, JumpByte(old(Now()), dest, back, line)]]
    {
      hide Nearest;
      var here := Size();
      var target := FindNumeric(labels, dest, cur, line, back);
      if target.Some? {
        var disp: int := target.value;
        disp := disp - (here + 2);
        EmitBytes([op, ByteOf(disp)]);
      } else {
        EmitBytes([op, 0]);
      }
    }

    /** Zero bytes until the section is aligned. */
    method EmitAlign(to: nat)
      modifies this`code, this`aligns
      ensures code == old(code)[cur := CodeOf(old(Now()), cur) + Zeros(Padding(to, Here(old(Now()))))]
      ensures aligns == Raised(old(aligns), cur, to)
    {
      ghost var s := Now();
      EmitBytes([]);
      var here := Size();
      var n := Padding(to, here);
      hide Padding;
      var i := 0;
      while i < n
        invariant 0 <= i <= n
        invariant code == s.code[cur := CodeOf(s, cur) + Zeros(i)] && aligns == s.aligns
      {
        EmitBytes([0]);
        i := i + 1;
        assert CodeOf(s, cur) + Zeros(i) == CodeOf(s, cur) + Zeros(i - 1) + [0];
      }
      if to > (if cur in aligns then aligns[cur] else 4) {
        aligns := aligns[cur := to];
      }
    }

    /** The parts of an instruction or a data directive, one after the other. */
    method EmitParts(parts: seq<Part>, ghost line: nat, pass: nat)
      requires TableOk(table)
      modifies this`code, this`table, this`relocs
      ensures Now()
           == EmitStmt(old(Now()).(table := ApplyAll(old(table), StmtTouches(Emit(parts)))), Emit(parts), line, pass)
      ensures TableOk(table)
    {
      hide EmitStmt, StmtTouches, TableOk, Emitting, ApplyAll;
      ghost var s := Now();
      EmittingBegin(s, parts, pass);
      EmitBytes([]);
      assert Now() == s.(code := s.code[s.cur := CodeOf(s, s.cur)]);
      var j := 0;
      while j < |parts|
        invariant 0 <= j <= |parts| && TableOk(table) && cur == s.cur
        invariant Emitting(s, Now(), parts, j, pass)
      {
        EmittingStep(s, Now(), parts, j, pass);
        EmitOne(parts[j], pass);
        j := j + 1;
      }
      EmittingEnd(s, Now(), parts, line, pass);
    }

    method EmitOne(p: Part, pass: nat)
      requires TableOk(table)
      modifies this`code, this`table, this`relocs
      ensures Now() == EmitPart(old(Now()), p, pass) && TableOk(table)
    {
      hide PartBytes, TableOk;
      var here := Size();
      var sites := PartSites(p, here);
      PartSitesInside(p, here);
      hide PartSites;
      if sites == [] {
        NoTouches(table, sites);
        NoFixups(table.names, cur);
      } else {
        OneTouch(table, sites);
        var idx := FindOrAdd(Mention(sites[0].sym));
        if pass == 2 {
          relocs := relocs + [Fixup(cur, sites[0].offset, idx, sites[0].pcrel)];
        }
        assert ToFixups(table.names, cur, sites) == [Fixup(cur, sites[0].offset, idx, sites[0].pcrel)];
      }
      hide ApplyAll;
      EmitBytes(PartBytes(p));
    }

    method AssembleLine(l: Line, line: nat, pass: nat)
      requires (pass == 1 || pass == 2) && TableOk(table)
      modifies this
      ensures Now() == Step(old(Now()), l, line, pass) && TableOk(table)
    {
      hide Updated, JumpByte, TableOk, ApplyAll, PartsSites, PartsBytes, Padding, Labelled, ToFixups;
      ghost var s := Now();
      if l.mark.Some? {
        AddLabel(l.mark.value, line, pass);
      } else {
        ApplyNone(table);
        LabelledNone(s, line, pass);
      }
      ghost var s1 := Now();
      LineStep(s, s1, l, line, pass);
      NoFixups(ApplyAll(s1.table, StmtTouches(l.stmt)).names, s1.cur);
      match l.stmt {
        case Emit(parts) => EmitParts(parts, line, pass);
        case Align(to) =>
          ApplyNone(table);
          EmitAlign(to);
        case ShortJump(op, dest, back) =>
          ApplyNone(table);
          EmitJump(op, dest, back, line);
        case Switch(sec) =>
          ApplyNone(table);
          cur := sec;
        case Bind(name, global) => Declare(Touch(name, None, None, Some(global)));
        case Equate(name, value) => Declare(Touch(name, Some((Absolute, value)), None, None));
        case Common(name, size, align) => Declare(Touch(name, Some((Shared, align)), Some(size), Some(true)));
      }
    }

    /** A directive that only speaks of a symbol. */
    method Declare(u: Touch)
      requires TableOk(table)
      modifies this`table, this`code
      ensures table == ApplyAll(old(table), [u]) && TableOk(table)
      ensures code == old(code)[cur := CodeOf(old(Now()), cur) + []]
    {
      hide TableOk;
      ApplyOne(table, u);
      var idx := FindOrAdd(u);
      EmitBytes([]);
    }

    /** Both passes over a file. */
    method Assemble(lines: seq<Line>)
      requires Now() == BLANK
      modifies this
      ensures Now() == Final(lines)
    {
      hide Step, TableOk;
      EmptyOk();
      var pass := 1;
      while pass <= 2
        invariant 1 <= pass <= 3 && TableOk(table)
        invariant Now() == match pass case 1 => BLANK case 2 => FirstPass(lines) case _ => Final(lines)
      {
        ghost var s := Now();
        cur, code, relocs := 1, map[], [];
        var l := 0;
        while l < |lines|
          invariant 0 <= l <= |lines| && Now() == Run(Begin(s), lines, l, pass) && TableOk(table)
        {
          AssembleLine(lines[l], l, pass);
          l := l + 1;
        }
        pass := pass + 1;
      }
    }
  }

  lemma LabelledNone(s: State, line: nat, pass: nat)
    ensures Labelled(s, None, line, pass) == s
  {
  }

  lemma ApplyOne(t: Table, u: Touch)
    ensures ApplyAll(t, [u]) == Apply(t, u)
  {
    assert [u][..0] == [];
    hide Overlay;
  }

  lemma NoTouches(t: Table, sites: seq<Site>)
    requires sites == []
    ensures ApplyAll(t, SiteTouches(sites)) == t
  {
    assert SiteTouches(sites) == [];
  }

  lemma OneTouch(t: Table, sites: seq<Site>)
    requires |sites| == 1
    ensures ApplyAll(t, SiteTouches(sites)) == Apply(t, Mention(sites[0].sym))
  {
    assert SiteTouches(sites) == [Mention(sites[0].sym)];
    ApplyOne(t, Mention(sites[0].sym));
  }

  /** A line in two steps: its label, then its statement. */
  lemma LineStep(s: State, s1: State, l: Line, line: nat, pass: nat)
    requires s1 == Labelled(s, l.mark, line, pass).(table := ApplyAll(s.table, MarkTouches(l.mark, s.cur, Here(s))))
    ensures Step(s, l, line, pass) ==
      EmitStmt(s1.(table := ApplyAll(s1.table, StmtTouches(l.stmt))), l.stmt, line, pass)
  {
    hide Updated, ApplyAll, EmitStmt;
    ApplyAppend(s.table, MarkTouches(l.mark, s.cur, Here(s)), StmtTouches(l.stmt));
  }
}
