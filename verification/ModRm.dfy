/**
  The assembler's encoder for a register field and a register or memory operand, against the
  decoding rules of section 2.1.5 of the Intel Software Developer's Manual, Volume 2.
 */
module ModRm {
  import opened Prelude

  type Reg = r: int | 0 <= r < 8
  type Int32 = d: int | -0x8000_0000 <= d < 0x8000_0000

  const ESP: Reg := 4
  const EBP: Reg := 5

  /** An operand as the parser leaves it; the scale is whatever number was written. */
  datatype Operand =
    | Register(num: Reg)
    | Memory(base: Option<Reg>, index: Option<Reg>, scale: int, disp: Int32, sym: Option<string>)

  datatype Reloc = Reloc(offset: nat, sym: string)

  // ----- Bytes -----

  function ByteOf(d: int): Byte { (d % 0x100) as Byte }

  function Dword(d: int): (b: seq<Byte>)
    ensures |b| == 4
  {
    [ByteOf(d), ByteOf(d / 0x100), ByteOf(d / 0x1_0000), ByteOf(d / 0x100_0000)]
  }

  /** Sign extension. */
  function Signed8(b: Byte): int { if b < 0x80 then b as int else b as int - 0x100 }

  function Signed32(b: seq<Byte>): int
    requires |b| == 4
  {
    var u := b[0] as int + 0x100 * b[1] as int + 0x1_0000 * b[2] as int + 0x100_0000 * b[3] as int;
    if u < 0x8000_0000 then u else u - 0x1_0000_0000
  }

  lemma DwordRoundTrip(d: Int32)
    ensures Signed32(Dword(d)) == d
  {
    var a := d / 0x100;
    var b := a / 0x100;
    var c := b / 0x100;
    DivMod(d, 0x1_0000, b, d % 0x100 + 0x100 * (a % 0x100));
    DivMod(d, 0x100_0000, c, d % 0x100 + 0x100 * (a % 0x100) + 0x1_0000 * (b % 0x100));
    SignByte(c);
  }

  lemma SignByte(c: int)
    requires -0x80 <= c < 0x80
    ensures c % 0x100 == if c < 0 then c + 0x100 else c
  {
  }

  lemma ByteRoundTrip(d: int)
    requires -0x80 <= d < 0x80
    ensures Signed8(ByteOf(d)) == d
  {
  }

  // ----- emit_modrm_sib -----

  function ModRmByte(mod: int, reg: Reg, rm: Reg): Byte
    requires 0 <= mod < 4
  {
    (mod * 64 + reg * 8 + rm) as Byte
  }

  function ScaleCode(scale: int): (c: int)
    ensures 0 <= c < 4
  {
    if scale == 2 then 1 else if scale == 4 then 2 else if scale == 8 then 3 else 0
  }

  function SibByte(scale: int, index: Reg, base: Reg): Byte { (ScaleCode(scale) * 64 + index * 8 + base) as Byte }

  predicate Short(op: Operand)
    requires op.Memory?
  {
    -128 <= op.disp <= 127 && op.sym.None?
  }

  predicate Zero(op: Operand)
    requires op.Memory?
  {
    op.disp == 0 && op.sym.None?
  }

  /** How a memory operand is laid out: the mod field and the width of the displacement. */
  function Mod(op: Operand): (m: int)
    requires op.Memory?
    ensures 0 <= m < 3
  {
    if op.base.None? then 0
    else if Zero(op) && op.base.value != EBP then 0
    else if Short(op) then 1
    else 2
  }

  function Disp(op: Operand): seq<Byte>
    requires op.Memory?
  {
    if op.base.None? || Mod(op) == 2 then Dword(op.disp) else if Mod(op) == 1 then [ByteOf(op.disp)] else []
  }

  /** The bytes before the displacement. */
  function Head(reg: Reg, op: Operand): (b: seq<Byte>)
    ensures 1 <= |b| <= 2
  {
    match op
    case Register(num) => [ModRmByte(3, reg, num)]
    case Memory(None, None, _, _, _) => [ModRmByte(0, reg, 5)]
    case Memory(None, Some(i), scale, _, _) => [ModRmByte(0, reg, 4), SibByte(scale, i, 5)]
    case Memory(Some(b), Some(i), scale, _, _) => [ModRmByte(Mod(op), reg, 4), SibByte(scale, i, b)]
    case Memory(Some(b), None, _, _, _) =>
      if b == ESP then [ModRmByte(Mod(op), reg, 4), 0x24] else [ModRmByte(Mod(op), reg, b)]
  }

  function Encode(reg: Reg, op: Operand): seq<Byte> {
    Head(reg, op) + if op.Memory? then Disp(op) else []
  }

  /** The section buffer and its relocations. */
  class Section {
    var code: seq<Byte>
    var relocs: seq<Reloc>

    constructor ()
      ensures code == [] && relocs == []
    {
      code, relocs := [], [];
    }

    method EmitByte(b: Byte)
      modifies this
      ensures code == old(code) + [b] && relocs == old(relocs)
    {
      code := code + [b];
    }

    method EmitDword(d: int)
      modifies this
      ensures code == old(code) + Dword(d) && relocs == old(relocs)
    {
      code := code + [ByteOf(d), ByteOf(d / 0x100), ByteOf(d / 0x1_0000), ByteOf(d / 0x100_0000)];
    }

    /** A displacement of four bytes, in the second pass with a relocation if it has a symbol. */
    method EmitDisp(op: Operand, pass: nat)
      requires op.Memory?
      modifies this
      ensures code == old(code) + Dword(op.disp)
      ensures relocs == old(relocs) + if op.sym.Some? && pass == 2 then [Reloc(|old(code)|, op.sym.value)] else []
    {
      if op.sym.Some? {
        if pass == 2 {
          relocs := relocs + [Reloc(|code|, op.sym.value)];
        }
      }
      EmitDword(op.disp);
    }

    method EmitModRmSib(reg: Reg, op: Operand, pass: nat)
      modifies this
      ensures code == old(code) + Encode(reg, op)
      ensures relocs == old(relocs) + if pass == 2 then RelocsOf(op, |old(code)| + |Head(reg, op)|) else []
    {
      hide Dword, ByteOf;
      match op {
        case Register(num) =>
          EmitByte(ModRmByte(3, reg, num));
        case Memory(None, None, _, _, _) =>
          EmitByte(ModRmByte(0, reg, 5));
          EmitDisp(op, pass);
        case Memory(None, Some(i), scale, _, _) =>
          EmitByte(ModRmByte(0, reg, 4));
          EmitByte(SibByte(scale, i, 5));
          EmitDisp(op, pass);
        case Memory(Some(b), Some(i), scale, disp, sym) =>
          if disp == 0 && sym.None? && b != EBP {
            EmitByte(ModRmByte(0, reg, 4));
            EmitByte(SibByte(scale, i, b));
          } else if -128 <= disp <= 127 && sym.None? {
            EmitByte(ModRmByte(1, reg, 4));
            EmitByte(SibByte(scale, i, b));
            EmitByte(ByteOf(disp));
          } else {
            EmitByte(ModRmByte(2, reg, 4));
            EmitByte(SibByte(scale, i, b));
            EmitDisp(op, pass);
          }
        case Memory(Some(b), None, _, disp, sym) =>
          if b == ESP {
            EmitEsp(reg, op, pass);
          } else if disp == 0 && sym.None? && b != EBP {
            EmitByte(ModRmByte(0, reg, b));
          } else if -128 <= disp <= 127 && sym.None? {
            EmitByte(ModRmByte(1, reg, b));
            EmitByte(ByteOf(disp));
          } else {
            EmitByte(ModRmByte(2, reg, b));
            EmitDisp(op, pass);
          }
      }
    }

    /** %esp as base needs a SIB byte. */
    method EmitEsp(reg: Reg, op: Operand, pass: nat)
      requires op.Memory? && op.base == Some(ESP) && op.index.None?
      modifies this
      ensures code == old(code) + Encode(reg, op)
      ensures relocs == old(relocs) + if pass == 2 then RelocsOf(op, |old(code)| + |Head(reg, op)|) else []
    {
      hide Dword, ByteOf;
      if op.disp == 0 && op.sym.None? {
        EmitByte(ModRmByte(0, reg, 4));
        EmitByte(0x24);
      } else if -128 <= op.disp <= 127 && op.sym.None? {
        EmitByte(ModRmByte(1, reg, 4));
        EmitByte(0x24);
        EmitByte(ByteOf(op.disp));
      } else {
        EmitByte(ModRmByte(2, reg, 4));
        EmitByte(0x24);
        EmitDisp(op, pass);
      }
    }
  }

  function RelocsOf(op: Operand, at: nat): seq<Reloc> {
    if op.Memory? && op.sym.Some? then [Reloc(at, op.sym.value)] else []
  }

  // ----- Decoding -----

  /** The effective address: base + scale * index + displacement (+ symbol). */
  datatype Form =
    | Direct(num: Reg)
    | Address(base: Option<Reg>, index: Option<(Reg, int)>, disp: int, sym: Option<string>)

  /** A decoded operand and the number of bytes it took. */
  datatype Decoded = Decoded(reg: Reg, form: Form, length: nat)

  /** The symbol of the displacement at an offset, if it is relocated. */
  function SymAt(relocs: seq<Reloc>, at: nat): (r: Option<string>)
    ensures r.Some? ==> Reloc(at, r.value) in relocs
  {
    if relocs == [] then None
    else if relocs[|relocs| - 1].offset == at then Some(relocs[|relocs| - 1].sym)
    else SymAt(relocs[..|relocs| - 1], at)
  }

  function DispAt(code: seq<Byte>, relocs: seq<Reloc>, at: nat, width: nat): (r: Option<(int, Option<string>)>)
    requires width in {0, 1, 4}
  {
    if at + width > |code| then None
    else if width == 0 then Some((0, None))
    else if width == 1 then Some((Signed8(code[at]), None))
    else Some((Signed32(code[at..at + 4]), SymAt(relocs, at)))
  }

  /** Put a decoded address together, or fail where the bytes end too early. */
  function Assemble(reg: Reg, base: Option<Reg>, index: Option<(Reg, int)>, head: nat, width: nat,
                    d: Option<(int, Option<string>)>): Option<Decoded> {
    if d.None? then None else Some(Decoded(reg, Address(base, index, d.value.0, d.value.1), head + width))
  }

  function Power(c: int): int { if c == 0 then 1 else if c == 1 then 2 else if c == 2 then 4 else 8 }

  function Width(mod: int): nat { if mod == 1 then 1 else if mod == 2 then 4 else 0 }

  /** ModR/M, SIB and displacement at an offset, by the manual's tables 2-2 and 2-3. */
  function Decode(code: seq<Byte>, relocs: seq<Reloc>, at: nat): Option<Decoded> {
    if at >= |code| then None
    else
      var m := code[at] as int;
      var mod, reg, rm := m / 64, m / 8 % 8, m % 8;
      if mod == 3 then Some(Decoded(reg, Direct(rm), 1))
      else if rm == 4 then
        if at + 1 >= |code| then None
        else
          var s := code[at + 1] as int;
          var ss, i, b := s / 64, s / 8 % 8, s % 8;
          var index := if i == 4 then None else Some((i, Power(ss)));
          if b == 5 && mod == 0 then Assemble(reg, None, index, 2, 4, DispAt(code, relocs, at + 2, 4))
          else Assemble(reg, Some(b), index, 2, Width(mod), DispAt(code, relocs, at + 2, Width(mod)))
      else if rm == 5 && mod == 0 then Assemble(reg, None, None, 1, 4, DispAt(code, relocs, at + 1, 4))
      else Assemble(reg, Some(rm), None, 1, Width(mod), DispAt(code, relocs, at + 1, Width(mod)))
  }

  // ----- The round trip -----

  /** What the operand says. */
  function FormOf(op: Operand): Form {
    match op
    case Register(num) => Direct(num)
    case Memory(base, index, scale, disp, sym) =>
      Address(base, if index.Some? then Some((index.value, scale)) else None, disp, sym)
  }

  /** What its encoding says: %esp cannot be an index, and other scales count as one. */
  function Meaning(op: Operand): Form {
    match op
    case Register(num) => Direct(num)
    case Memory(base, index, scale, disp, sym) =>
      var i := if index.Some? && index.value != ESP then Some((index.value, Power(ScaleCode(scale)))) else None;
      Address(base, i, disp, sym)
  }

  lemma MeaningIsForm(op: Operand)
    ensures Meaning(op) == FormOf(op) <==>
            (op.Register? || op.index.None? || (op.index.value != ESP && op.scale in {1, 2, 4, 8}))
  {
  }

  lemma FieldsOf(mod: int, reg: Reg, rm: Reg)
    requires 0 <= mod < 4
    ensures var m := mod * 64 + reg * 8 + rm; m / 64 == mod && m / 8 % 8 == reg && m % 8 == rm
  {
    var m := mod * 64 + reg * 8 + rm;
    DivMod(m, 64, mod, reg * 8 + rm);
    DivMod(m, 8, mod * 8 + reg, rm);
    DivMod(mod * 8 + reg, 8, mod, reg);
  }

  /** The bytes before the displacement determine everything but the displacement. */
  lemma HeadDecoded(code: seq<Byte>, relocs: seq<Reloc>, at: nat, reg: Reg, op: Operand)
    requires op.Memory? && at + |Head(reg, op)| <= |code| && code[at..at + |Head(reg, op)|] == Head(reg, op)
    ensures |Disp(op)| in {0, 1, 4}
    ensures var h := |Head(reg, op)|; var w := |Disp(op)|;
      Decode(code, relocs, at) == Assemble(reg, op.base, Meaning(op).index, h, w, DispAt(code, relocs, at + h, w))
  {
    hide DispAt, Dword, ByteOf, Assemble;
    var h := code[at..at + |Head(reg, op)|];
    assert h[0] == code[at];
    if |h| == 2 { assert h[1] == code[at + 1]; }
    hide Power, ScaleCode;
    match op
    case Memory(None, None, _, _, _) =>
      FieldsOf(0, reg, 5);
    case Memory(None, Some(i), scale, _, _) =>
      FieldsOf(0, reg, 4);
      FieldsOf(ScaleCode(scale), i, 5);
    case Memory(Some(b), Some(i), scale, _, _) =>
      FieldsOf(Mod(op), reg, 4);
      FieldsOf(ScaleCode(scale), i, b);
    case Memory(Some(b), None, _, _, _) =>
      FieldsOf(Mod(op), reg, if b == ESP then 4 else b);
  }

  lemma {:induction false} SymSkips(a: seq<Reloc>, b: seq<Reloc>, at: nat)
    requires forall r :: r in b ==> r.offset != at
    ensures SymAt(a + b, at) == SymAt(a, at)
    decreases |b|
  {
    if b == [] {
      assert a + b == a;
    } else {
      var n := |b| - 1;
      assert (a + b)[..|a + b| - 1] == a + b[..n];
      assert b[n] in b;
      SymSkips(a, b[..n], at);
    }
  }

  lemma SymFound(before: seq<Reloc>, op: Operand, after: seq<Reloc>, at: nat)
    requires op.Memory? && (forall r :: r in before ==> r.offset != at) && (forall r :: r in after ==> r.offset != at)
    ensures SymAt(before + RelocsOf(op, at) + after, at) == op.sym
  {
    SymSkips(before + RelocsOf(op, at), after, at);
    if op.sym.None? {
      assert before + RelocsOf(op, at) == [] + before;
      SymSkips([], before, at);
    } else {
      assert (before + RelocsOf(op, at))[|before|] == Reloc(at, op.sym.value);
    }
  }

  lemma DispDecoded(code: seq<Byte>, relocs: seq<Reloc>, at: nat, op: Operand)
    requires op.Memory? && at + |Disp(op)| <= |code| && code[at..at + |Disp(op)|] == Disp(op)
    requires |Disp(op)| == 4 ==> SymAt(relocs, at) == op.sym
    ensures |Disp(op)| in {0, 1, 4} && DispAt(code, relocs, at, |Disp(op)|) == Some((op.disp, op.sym))
  {
    DwordRoundTrip(op.disp);
    if |Disp(op)| == 1 {
      ByteRoundTrip(op.disp);
      assert code[at] == code[at..at + 1][0];
    }
    hide Dword, ByteOf, Signed32, Signed8;
  }

  /** Decoding what was encoded, anywhere in a section, gives the register field and the meaning
      of the operand, symbol included, and takes exactly the encoded bytes. */
  lemma EncodeDecode(pre: seq<Byte>, reg: Reg, op: Operand, post: seq<Byte>, before: seq<Reloc>, after: seq<Reloc>)
    requires forall r :: r in before ==> r.offset < |pre|
    requires forall r :: r in after ==> r.offset >= |pre| + |Encode(reg, op)|
    ensures Decode(pre + Encode(reg, op) + post, before + RelocsOf(op, |pre| + |Head(reg, op)|) + after, |pre|)
         == Some(Decoded(reg, Meaning(op), |Encode(reg, op)|))
  {
    hide Decode, DispAt, Head, Disp, SymAt, RelocsOf, Meaning;
    if op.Register? {
      RegisterDecoded(pre, reg, op, post, before + RelocsOf(op, |pre| + |Head(reg, op)|) + after);
    } else {
      var h, w := Head(reg, op), Disp(op);
      var at := |pre| + |h|;
      var code := pre + (h + w) + post;
      var relocs := before + RelocsOf(op, at) + after;
      assert code[|pre|..at] == h && code[at..at + |w|] == w;
      HeadDecoded(code, relocs, |pre|, reg, op);
      if |w| == 4 { SymFound(before, op, after, at); }
      DispDecoded(code, relocs, at, op);
      MeaningIs(op);
    }
  }

  lemma MeaningIs(op: Operand)
    requires op.Memory?
    ensures Meaning(op) == Address(op.base, Meaning(op).index, op.disp, op.sym)
  {
  }

  lemma RegisterDecoded(pre: seq<Byte>, reg: Reg, op: Operand, post: seq<Byte>, relocs: seq<Reloc>)
    requires op.Register?
    ensures Decode(pre + Encode(reg, op) + post, relocs, |pre|) == Some(Decoded(reg, Meaning(op), |Encode(reg, op)|))
  {
    var code := pre + Encode(reg, op) + post;
    assert code[|pre|] == ModRmByte(3, reg, op.num);
    FieldsOf(3, reg, op.num);
  }

  /** The assembler's choice is the shortest: no bytes that decode to the same register field and
      meaning are fewer, unless %esp was written as an index, which takes a byte too many. */
  lemma Shortest(code: seq<Byte>, relocs: seq<Reloc>, at: nat, reg: Reg, op: Operand, n: nat)
    requires Decode(code, relocs, at) == Some(Decoded(reg, Meaning(op), n))
    requires op.Memory? ==> op.index != Some(ESP)
    ensures |Encode(reg, op)| <= n
  {
    EncodedLength(reg, op);
    hide Encode, SymAt, Signed32, Power, ScaleCode;
  }

  /** One byte, one more for an index or %esp as the base, and none, one or four of displacement. */
  lemma EncodedLength(reg: Reg, op: Operand)
    ensures |Encode(reg, op)|
         == if op.Register? then 1
            else 1 + (if op.index.Some? || op.base == Some(4) then 1 else 0)
                   + (if op.base.None? || op.sym.Some? then 4
                      else if op.disp == 0 && op.base != Some(5) then 0
                      else if -128 <= op.disp <= 127 then 1
                      else 4)
  {
    hide ModRmByte, SibByte, ByteOf;
  }
}
