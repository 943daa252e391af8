/**
  The linker's layout: input sections are appended to five output sections, which are then
  placed one after the other from the image base on.
 */
module LinkLayout {
  import opened Prelude

  const SECTIONS := 5
  const BSS := 4

  /** An input section; one without file contents (NOBITS) stands for that many zero bytes. */
  datatype InSec = InSec(name: string, alloc: bool, nobits: bool, align: nat, bytes: seq<Byte>)

  predicate Starts(s: string, p: string) { |p| <= |s| && s[..|p|] == p }

  /** Which output section an input section goes to, if it is kept. */
  function Target(s: InSec): (t: Option<nat>)
    ensures t.Some? ==> t.value < SECTIONS
  {
    if !s.alloc then None
    else if s.name == ".multiboot" then Some(0)
    else if Starts(s.name, ".text") then Some(1)
    else if Starts(s.name, ".rodata") then Some(2)
    else if Starts(s.name, ".data") then Some(3)
    else if Starts(s.name, ".bss") then Some(BSS)
    else None
  }

  ghost predicate Begins(name: string, p: string) {
    |p| <= |name| && forall i :: 0 <= i < |p| ==> name[i] == p[i]
  }

  /** The kinds of sections that are kept, in their order in memory. */
  ghost predicate Named(name: string, kind: nat) {
    match kind
    case 0 => name == ".multiboot"
    case 1 => Begins(name, ".text")
    case 2 => Begins(name, ".rodata")
    case 3 => Begins(name, ".data")
    case 4 => Begins(name, ".bss")
    case _ => false
  }

  /** An input section is kept if and only if it is allocated and has one of these names. */
  lemma TargetExactly(s: InSec, kind: nat)
    ensures Target(s) == Some(kind) <==> s.alloc && Named(s.name, kind)
    ensures Target(s) == None <==> !s.alloc || forall k: nat :: !Named(s.name, k)
  {
    NamedOnce(s.name);
    forall p: string ensures Starts(s.name, p) <==> Begins(s.name, p) {
      if Begins(s.name, p) { assert s.name[..|p|] == p; }
      if Starts(s.name, p) {
        forall i | 0 <= i < |p| ensures s.name[i] == p[i] { assert s.name[..|p|][i] == s.name[i]; }
      }
    }
    hide Begins, Starts;
    if s.alloc && Target(s).Some? { assert Named(s.name, Target(s).value); }
  }

  /** No name is of two kinds. */
  lemma NamedOnce(name: string)
    ensures forall j: nat, k: nat :: Named(name, j) && Named(name, k) ==> j == k
  {
    forall j: nat, k: nat | Named(name, j) && Named(name, k) ensures j == k {
      assert |name| > 1 && name[1] == ['m', 't', 'r', 'd', 'b'][j];
      assert name[1] == ['m', 't', 'r', 'd', 'b'][k];
    }
  }

  function AlignOf(s: InSec): (a: nat)
    ensures a >= 1
  {
    if s.align == 0 then 4 else s.align
  }

  /** out_sec_append: zero bytes up to the alignment, then the section. */
  function Append(c: seq<Byte>, s: InSec): (r: seq<Byte>)
    ensures |r| == AlignUp(|c|, AlignOf(s)) + |s.bytes|
  {
    AlignUpBounds(|c|, AlignOf(s));
    c + Zeros(AlignUp(|c|, AlignOf(s)) - |c|) + s.bytes
  }

  /** The output section t after all inputs. */
  function Contents(ins: seq<InSec>, t: nat): seq<Byte> {
    if ins == [] then []
    else
      var c := Contents(ins[..|ins| - 1], t);
      if Target(ins[|ins| - 1]) == Some(t) then Append(c, ins[|ins| - 1]) else c
  }

  predicate Mapped(ins: seq<InSec>, k: nat, t: nat) { k < |ins| && Target(ins[k]) == Some(t) }

  /** Where input section k lies in its output section t. */
  function OffsetOf(ins: seq<InSec>, k: nat, t: nat): nat
    requires k < |ins|
  {
    AlignUp(|Contents(ins[..k], t)|, AlignOf(ins[k]))
  }

  /** What is appended later leaves what is there. */
  lemma {:induction false} ContentsGrow(ins: seq<InSec>, k: nat, t: nat)
    requires k <= |ins|
    ensures Contents(ins[..k], t) <= Contents(ins, t)
    decreases |ins|
  {
    if k == |ins| {
      assert ins[..k] == ins;
    } else {
      var n := |ins| - 1;
      ContentsGrow(ins[..n], k, t);
      assert ins[..n][..k] == ins[..k];
      AlignUpBounds(|Contents(ins[..n], t)|, AlignOf(ins[n]));
      hide AlignUp, Target;
    }
  }

  lemma PlacedEnd(ins: seq<InSec>, k: nat, t: nat)
    requires Mapped(ins, k, t)
    ensures |Contents(ins[..k + 1], t)| == OffsetOf(ins, k, t) + |ins[k].bytes|
    ensures Contents(ins[..k + 1], t)[OffsetOf(ins, k, t)..] == ins[k].bytes
  {
    assert ins[..k + 1][..k] == ins[..k];
    AlignUpBounds(|Contents(ins[..k], t)|, AlignOf(ins[k]));
    hide AlignUp, Target;
  }

  /** Input section k is found unchanged at its offset, behind less padding than its alignment; if
      that is a power of two, the offset is a multiple. */
  lemma PlacedAt(ins: seq<InSec>, k: nat, t: nat)
    requires Mapped(ins, k, t)
    ensures var o := OffsetOf(ins, k, t);
      && (IsPow2(AlignOf(ins[k])) ==> o % AlignOf(ins[k]) == 0)
      && |Contents(ins[..k], t)| <= o < |Contents(ins[..k], t)| + AlignOf(ins[k])
      && o + |ins[k].bytes| <= |Contents(ins, t)|
      && Contents(ins, t)[o..o + |ins[k].bytes|] == ins[k].bytes
  {
    PlacedEnd(ins, k, t);
    ContentsGrow(ins, k + 1, t);
    AlignUpBounds(|Contents(ins[..k], t)|, AlignOf(ins[k]));
    hide AlignUp, Target, Contents, AlignOf, IsPow2;
    var c := Contents(ins, t);
    var o := OffsetOf(ins, k, t);
    var d := Contents(ins[..k + 1], t);
    assert c[..|d|] == d;
    assert c[o..o + |ins[k].bytes|] == c[..|d|][o..];
  }

  /** Sections of one output section do not overlap and keep their order. */
  lemma PlacedApart(ins: seq<InSec>, j: nat, k: nat, t: nat)
    requires Mapped(ins, j, t) && Mapped(ins, k, t) && j < k
    ensures OffsetOf(ins, j, t) + |ins[j].bytes| <= OffsetOf(ins, k, t)
  {
    PlacedEnd(ins, j, t);
    ContentsGrow(ins[..k], j + 1, t);
    assert ins[..k][..j + 1] == ins[..j + 1];
    AlignUpBounds(|Contents(ins[..k], t)|, AlignOf(ins[k]));
    hide AlignUp, Target, Contents, AlignOf;
  }

  ghost predicate Covers(ins: seq<InSec>, k: nat, t: nat, x: nat) {
    Mapped(ins, k, t) && OffsetOf(ins, k, t) <= x < OffsetOf(ins, k, t) + |ins[k].bytes|
  }

  lemma CoversPrefix(ins: seq<InSec>, n: nat, k: nat, t: nat, x: nat)
    requires k < n <= |ins|
    ensures Covers(ins[..n], k, t, x) == Covers(ins, k, t, x)
  {
    assert ins[..n][..k] == ins[..k];
  }

  /** Between the sections there are only zero bytes. */
  lemma {:induction false} GapsAreZero(ins: seq<InSec>, t: nat, x: nat)
    requires x < |Contents(ins, t)| && forall k :: 0 <= k < |ins| ==> !Covers(ins, k, t, x)
    ensures Contents(ins, t)[x] == 0
  {
    var n := |ins| - 1;
    var c := Contents(ins[..n], t);
    if x < |c| {
      forall k | 0 <= k < n ensures !Covers(ins[..n], k, t, x) { CoversPrefix(ins, n, k, t, x); }
      GapsAreZero(ins[..n], t, x);
      AlignUpBounds(|c|, AlignOf(ins[n]));
      hide AlignUp, Target;
    } else {
      assert !Covers(ins, n, t, x);
      hide AlignUp, Target, AlignOf;
    }
  }

  // ----- Addresses -----

  function SectionAlign(t: nat): (a: nat)
    ensures a >= 1
  {
    if t == 0 then 4 else 4096
  }

  /** Where output section t begins in memory. */
  function Vaddr(ins: seq<InSec>, base: nat, t: nat): nat {
    if t == 0 then AlignUp(base, SectionAlign(0))
    else AlignUp(Vaddr(ins, base, t - 1) + |Contents(ins, t - 1)|, SectionAlign(t))
  }

  lemma VaddrStep(ins: seq<InSec>, base: nat, t: nat)
    ensures Vaddr(ins, base, t) % SectionAlign(t) == 0
    ensures t > 0 ==> Vaddr(ins, base, t - 1) + |Contents(ins, t - 1)| <= Vaddr(ins, base, t)
    ensures t == 0 ==> base <= Vaddr(ins, base, t)
  {
    FourAndPage();
    hide IsPow2;
    if t == 0 { AlignUpBounds(base, 4); }
    else { AlignUpBounds(Vaddr(ins, base, t - 1) + |Contents(ins, t - 1)|, 4096); }
    hide AlignUp, Contents;
  }

  /** No space is wasted: the first output section begins on the next multiple of four, each other
      on the next page boundary, and an input without an alignment on the next multiple of four. */
  lemma LayoutTight(ins: seq<InSec>, base: nat, t: nat, k: nat)
    ensures Vaddr(ins, base, 0) % 4 == 0 && base <= Vaddr(ins, base, 0) < base + 4
    ensures var end := Vaddr(ins, base, t) + |Contents(ins, t)|;
      Vaddr(ins, base, t + 1) % 4096 == 0 && end <= Vaddr(ins, base, t + 1) < end + 4096
    ensures k < |ins| && ins[k].align == 0 ==>
      var size := |Contents(ins[..k], t)|; OffsetOf(ins, k, t) % 4 == 0 && size <= OffsetOf(ins, k, t) < size + 4
  {
    FourAndPage();
    hide IsPow2, Contents;
    AlignUpBounds(base, 4);
    AlignUpBounds(Vaddr(ins, base, t) + |Contents(ins, t)|, 4096);
    if k < |ins| { AlignUpBounds(|Contents(ins[..k], t)|, 4); }
    hide AlignUp;
  }

  /** Output sections are in order and do not overlap. */
  lemma {:induction false} VaddrOrder(ins: seq<InSec>, base: nat, t: nat, u: nat)
    requires t < u
    ensures Vaddr(ins, base, t) + |Contents(ins, t)| <= Vaddr(ins, base, u)
    ensures base <= Vaddr(ins, base, t)
    decreases t + u
  {
    hide Contents, Vaddr;
    VaddrStep(ins, base, u);
    if t + 1 < u {
      VaddrOrder(ins, base, t, u - 1);
    } else {
      VaddrStep(ins, base, t);
      if t > 0 { VaddrOrder(ins, base, t - 1, t); }
    }
  }

  /** The address of input section k. */
  function AddressOf(ins: seq<InSec>, base: nat, k: nat, t: nat): nat
    requires k < |ins|
  {
    Vaddr(ins, base, t) + OffsetOf(ins, k, t)
  }

  /** Any two mapped input sections occupy disjoint address ranges. */
  lemma AddressesApart(ins: seq<InSec>, base: nat, j: nat, t: nat, k: nat, u: nat)
    requires Mapped(ins, j, t) && Mapped(ins, k, u) && j != k
    ensures || AddressOf(ins, base, j, t) + |ins[j].bytes| <= AddressOf(ins, base, k, u)
            || AddressOf(ins, base, k, u) + |ins[k].bytes| <= AddressOf(ins, base, j, t)
  {
    PlacedAt(ins, j, t);
    PlacedAt(ins, k, u);
    hide Contents, Vaddr, OffsetOf, Target, AlignOf, AlignUp;
    if t == u {
      if j < k { PlacedApart(ins, j, k, t); } else { PlacedApart(ins, k, j, t); }
    } else if t < u {
      VaddrOrder(ins, base, t, u);
    } else {
      VaddrOrder(ins, base, u, t);
    }
  }

  /** Sections of an earlier kind lie below those of a later one. */
  lemma KindOrder(ins: seq<InSec>, base: nat, j: nat, r: nat, k: nat, q: nat)
    requires j < |ins| && k < |ins| && ins[j].alloc && ins[k].alloc
    requires Named(ins[j].name, r) && Named(ins[k].name, q) && r < q
    ensures Mapped(ins, j, r) && Mapped(ins, k, q)
    ensures AddressOf(ins, base, j, r) + |ins[j].bytes| <= AddressOf(ins, base, k, q)
  {
    hide Target, Named, Contents, Vaddr, OffsetOf, AlignOf, IsPow2;
    TargetExactly(ins[j], r);
    TargetExactly(ins[k], q);
    PlacedAt(ins, j, r);
    PlacedAt(ins, k, q);
    VaddrOrder(ins, base, r, q);
  }

  /** If its alignment is a power of two, its address is aligned if and only if that of its output
      section is. */
  lemma AddressAligned(ins: seq<InSec>, base: nat, k: nat, t: nat)
    requires Mapped(ins, k, t) && IsPow2(AlignOf(ins[k]))
    ensures AddressOf(ins, base, k, t) % AlignOf(ins[k]) == 0 <==> Vaddr(ins, base, t) % AlignOf(ins[k]) == 0
    ensures SectionAlign(t) % AlignOf(ins[k]) == 0 ==> AddressOf(ins, base, k, t) % AlignOf(ins[k]) == 0
  {
    PlacedAt(ins, k, t);
    VaddrStep(ins, base, t);
    hide Contents, Vaddr, OffsetOf, Target, AlignOf, AlignUp, IsPow2;
    SumMod(Vaddr(ins, base, t), OffsetOf(ins, k, t), AlignOf(ins[k]));
    if SectionAlign(t) % AlignOf(ins[k]) == 0 {
      ModTrans(Vaddr(ins, base, t), SectionAlign(t), AlignOf(ins[k]));
    }
  }

  /** Otherwise it need not be: a .data section with an alignment of two pages behind one byte of
      code, linked at one megabyte, begins at an odd page. */
  lemma DataMisaligned(ins: seq<InSec>, base: nat)
    requires ins == [InSec(".text", true, false, 1, [0x90]), InSec(".data", true, false, 8192, [0])]
    requires base == 0x10_0000
    ensures Mapped(ins, 1, 3) && AddressOf(ins, base, 1, 3) == 0x10_1000
    ensures AddressOf(ins, base, 1, 3) % AlignOf(ins[1]) == 4096
  {
    hide Contents, AlignUp, Vaddr;
    var text, data := ins[0], ins[1];
    Targets(text, data);
    hide Target, AlignOf;
    TwoSections(text, data, 0);
    TwoSections(text, data, 1);
    TwoSections(text, data, 2);
    TwoSections(text, data, 3);
    assert ins == [text, data];
    OneByOne(ins, base);
    FourAndPage();
    assert IsPow2(8192);
    hide IsPow2;
    Rounded(base, 4, base);
    Rounded(base, 4096, base);
    Rounded(base + 1, 4096, base + 4096);
    Rounded(base + 4096, 4096, base + 4096);
    Rounded(0, 8192, 0);
    DivMod(0x10_1000, 8192, 128, 4096);
  }

  /** Sections with this alignment are aligned whenever their output section is. */
  ghost predicate Keeps(a: nat)
    requires a > 0
  {
    forall ins: seq<InSec>, base: nat, k: nat, t: nat ::
      Mapped(ins, k, t) && AlignOf(ins[k]) == a && Vaddr(ins, base, t) % a == 0 ==> AddressOf(ins, base, k, t) % a == 0
  }

  /** That is so exactly for the powers of two. */
  lemma AlignmentsExactly(a: nat)
    requires a > 0
    ensures Keeps(a) <==> IsPow2(a)
  {
    if IsPow2(a) {
      forall ins: seq<InSec>, base: nat, k: nat, t: nat
        | Mapped(ins, k, t) && AlignOf(ins[k]) == a && Vaddr(ins, base, t) % a == 0
        ensures AddressOf(ins, base, k, t) % a == 0
      {
        hide Vaddr, Target, AlignOf, AddressOf;
        AddressAligned(ins, base, k, t);
      }
    } else {
      var ins := [InSec(".text", true, false, 1, [0x90]), InSec(".text", true, false, a, [0x90])];
      hide Vaddr, Target, AlignOf, AddressOf, IsPow2;
      CodeMisaligned(ins, 4096 * a, a);
    }
  }

  /** For any other alignment: behind one byte of code, at a base that is a multiple of it, a .text
      section begins less than its alignment behind the output section; for six at an offset of two. */
  lemma CodeMisaligned(ins: seq<InSec>, base: nat, a: nat)
    requires ins == [InSec(".text", true, false, 1, [0x90]), InSec(".text", true, false, a, [0x90])]
    requires a > 0 && !IsPow2(a) && base == 4096 * a
    ensures Mapped(ins, 1, 1) && AlignOf(ins[1]) == a && Vaddr(ins, base, 1) % a == 0
    ensures AddressOf(ins, base, 1, 1) % a != 0
    ensures a == 6 ==> AddressOf(ins, base, 1, 1) == Vaddr(ins, base, 1) + 2
  {
    hide Contents, AlignUp, Vaddr, IsPow2;
    var x, y := ins[0], ins[1];
    assert x.name[..5] == ".text" && y.name[..5] == ".text";
    assert Target(x) == Some(1) && Target(y) == Some(1) && AlignOf(x) == 1 && AlignOf(y) == a;
    hide Target, AlignOf;
    assert ins == [x, y];
    OneSection(x, y);
    OneByOne(ins, base);
    FourAndPage();
    DivMod(base, 4, 1024 * a, 0);
    DivMod(base, 4096, a, 0);
    DivMod(base, a, 4096, 0);
    Rounded(base, 4, base);
    Rounded(base, 4096, base);
    OneRounded(a);
    DivMod(base + AlignUp(1, a), a, 4096, AlignUp(1, a));
    if a == 6 { SixRounded(); }
  }

  lemma OneSection(x: InSec, y: InSec)
    requires Target(x) == Some(1) && Target(y) == Some(1) && AlignOf(x) == 1 && |x.bytes| == 1
    ensures Contents([x, y], 0) == [] && |Contents([x, y][..1], 1)| == 1
  {
    hide Target, AlignOf;
    var ins := [x, y];
    assert ins[..1] == [x] && [x][..0] == [];
    assert AlignUp(0, 1) == 0;
    hide AlignUp;
    assert Contents([x], 0) == [];
  }

  lemma Targets(text: InSec, data: InSec)
    requires text.name == ".text" && data.name == ".data" && text.alloc && data.alloc && text.align == 1
    requires data.align == 8192
    ensures Target(text) == Some(1) && Target(data) == Some(3) && AlignOf(text) == 1 && AlignOf(data) == 8192
  {
    assert text.name[1] == 't' && data.name[1] == 'd';
    assert ".rodata"[1] == 'r' && ".text"[1] == 't' && ".data"[1] == 'd';
    assert text.name[..5] == ".text" && data.name[..5] == ".data";
    assert data.name[..5][1] == 'd';
  }

  lemma TwoSections(text: InSec, data: InSec, t: nat)
    requires Target(text) == Some(1) && Target(data) == Some(3) && AlignOf(text) == 1 && |text.bytes| == 1 && t <= 3
    ensures var ins := [text, data];
      |Contents(ins[..1], t)| == (if t == 1 then 1 else 0) && (t < 3 ==> Contents(ins, t) == Contents(ins[..1], t))
  {
    hide Target, AlignOf;
    var ins := [text, data];
    assert ins[..1] == [text] && [text][..0] == [];
    assert Contents([], t) == [];
    assert AlignUp(0, 1) == 0;
    hide AlignUp;
  }

  lemma Rounded(x: nat, a: nat, y: nat)
    requires a > 0 && IsPow2(a) && y % a == 0 && x <= y < x + a
    ensures AlignUp(x, a) == y
  {
    hide AlignUp, IsPow2;
    AlignUpBounds(x, a);
    if AlignUp(x, a) < y { NextMultiple(AlignUp(x, a), y, a); }
    if y < AlignUp(x, a) { NextMultiple(y, AlignUp(x, a), a); }
  }

  lemma NextMultiple(x: nat, y: nat, a: nat)
    requires a > 0 && x % a == 0 && y % a == 0 && x < y
    ensures x + a <= y
  {
    var d := y / a - x / a;
    assert a * d == y - x;
    assert d >= 1 ==> a * d >= a;
    assert d <= 0 ==> a * d <= 0;
  }

  lemma OneByOne(ins: seq<InSec>, base: nat)
    ensures Vaddr(ins, base, 0) == AlignUp(base, 4)
    ensures Vaddr(ins, base, 1) == AlignUp(Vaddr(ins, base, 0) + |Contents(ins, 0)|, 4096)
    ensures Vaddr(ins, base, 2) == AlignUp(Vaddr(ins, base, 1) + |Contents(ins, 1)|, 4096)
    ensures Vaddr(ins, base, 3) == AlignUp(Vaddr(ins, base, 2) + |Contents(ins, 2)|, 4096)
  {
    hide Contents, AlignUp;
  }

  lemma SumMod(a: nat, b: nat, n: nat)
    requires n >= 1 && b % n == 0
    ensures (a + b) % n == a % n
  {
    DivMod(a + b, n, a / n + b / n, a % n);
  }

  lemma ModTrans(a: nat, m: nat, n: nat)
    requires m >= 1 && n >= 1 && a % m == 0 && m % n == 0
    ensures a % n == 0
  {
    var x, y := a / m, m / n;
    assert a == m * x && m == n * y;
    assert a == n * (y * x);
    DivMod(a, n, y * x, 0);
  }
}
