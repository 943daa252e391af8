/**
  The assembler's symbol table: names in the order in which they are first met, each with what
  the latest directives said about it. Going through the same directives again changes nothing.
 */
module AsmSymbols {
  import opened Prelude

  /** Where a symbol is defined: not yet, in a section, as a number, or as common storage. */
  datatype Home = Nowhere | In(section: nat) | Absolute | Shared

  datatype Sym = Sym(home: Home, value: nat, size: nat, global: bool)

  /** A symbol when it is first met. */
  const NEW := Sym(Nowhere, 0, 0, false)

  /** One mention of a name, with the fields it sets. */
  datatype Touch = Touch(name: string, def: Option<(Home, nat)>, size: Option<nat>, global: Option<bool>)

  datatype Table = Table(names: seq<string>, syms: map<string, Sym>)

  const EMPTY := Table([], map[])

  ghost predicate TableOk(t: Table) {
    && Distinct(t.names)
    && (forall n :: n in t.names <==> n in t.syms)
  }

  function Overlay(x: Sym, def: Option<(Home, nat)>, size: Option<nat>, global: Option<bool>): Sym {
    Sym(if def.Some? then def.value.0 else x.home,
        if def.Some? then def.value.1 else x.value,
        if size.Some? then size.value else x.size,
        if global.Some? then global.value else x.global)
  }

  function Look(t: Table, name: string): Sym { if name in t.syms then t.syms[name] else NEW }

  /** find_or_add_symbol, and the fields that are set. */
  function Apply(t: Table, u: Touch): Table {
    Table(if u.name in t.syms then t.names else t.names + [u.name],
          t.syms[u.name := Overlay(Look(t, u.name), u.def, u.size, u.global)])
  }

  function ApplyAll(t: Table, us: seq<Touch>): Table {
    if us == [] then t else Apply(ApplyAll(t, us[..|us| - 1]), us[|us| - 1])
  }

  ghost predicate Mentions(us: seq<Touch>, name: string) { exists i :: 0 <= i < |us| && us[i].name == name }

  // ----- The latest word on each field -----

  function LastDef(us: seq<Touch>, name: string): Option<(Home, nat)> {
    if us == [] then None
    else if us[|us| - 1].name == name && us[|us| - 1].def.Some? then us[|us| - 1].def
    else LastDef(us[..|us| - 1], name)
  }

  function LastSize(us: seq<Touch>, name: string): Option<nat> {
    if us == [] then None
    else if us[|us| - 1].name == name && us[|us| - 1].size.Some? then us[|us| - 1].size
    else LastSize(us[..|us| - 1], name)
  }

  function LastGlobal(us: seq<Touch>, name: string): Option<bool> {
    if us == [] then None
    else if us[|us| - 1].name == name && us[|us| - 1].global.Some? then us[|us| - 1].global
    else LastGlobal(us[..|us| - 1], name)
  }

  function Latest(x: Sym, us: seq<Touch>, name: string): Sym {
    Overlay(x, LastDef(us, name), LastSize(us, name), LastGlobal(us, name))
  }

  lemma EmptyOk()
    ensures TableOk(EMPTY)
  {
  }

  lemma {:induction false} ApplyOk(t: Table, us: seq<Touch>)
    requires TableOk(t)
    ensures TableOk(ApplyAll(t, us))
  {
    if us != [] {
      ApplyOk(t, us[..|us| - 1]);
      hide ApplyAll, Overlay;
    }
  }

  /** What the table says of a name afterwards. */
  lemma {:induction false} ApplyLook(t: Table, us: seq<Touch>, name: string)
    ensures name in ApplyAll(t, us).syms <==> name in t.syms || Mentions(us, name)
    ensures Look(ApplyAll(t, us), name) == Latest(Look(t, name), us, name)
  {
    if us != [] {
      var n := |us| - 1;
      var front := us[..n];
      ApplyLook(t, front, name);
      assert Mentions(us, name) <==> Mentions(front, name) || us[n].name == name by {
        if us[n].name == name { assert us[n].name == name; }
        if Mentions(front, name) {
          var i :| 0 <= i < |front| && front[i].name == name;
          assert us[i].name == name;
        }
        if i :| 0 <= i < |us| && us[i].name == name && i < n { assert front[i].name == name; }
      }
      hide Mentions;
    }
  }

  /** Names that are there stay, in their order; others are appended. */
  lemma {:induction false} NamesGrow(t: Table, us: seq<Touch>)
    ensures t.names <= ApplyAll(t, us).names
  {
    if us != [] { NamesGrow(t, us[..|us| - 1]); }
  }

  /** If every name is known, none is added. */
  lemma {:induction false} NamesStay(t: Table, us: seq<Touch>)
    requires forall i :: 0 <= i < |us| ==> us[i].name in t.syms
    ensures ApplyAll(t, us).names == t.names
    ensures ApplyAll(t, us).syms.Keys == t.syms.Keys
  {
    if us != [] {
      var n := |us| - 1;
      NamesStay(t, us[..n]);
      assert us[n].name in t.syms;
    }
  }

  /** Going through all of it again, up to any point, finds every name known. */
  lemma SecondTime(t: Table, us: seq<Touch>, k: nat)
    requires k <= |us|
    ensures ApplyAll(ApplyAll(t, us), us[..k]).names == ApplyAll(t, us).names
  {
    var t1 := ApplyAll(t, us);
    forall i | 0 <= i < k ensures us[..k][i].name in t1.syms {
      ApplyLook(t, us, us[i].name);
      assert Mentions(us, us[i].name);
    }
    NamesStay(t1, us[..k]);
  }

  /** Going through all of it again changes nothing. */
  lemma Idempotent(t: Table, us: seq<Touch>)
    ensures ApplyAll(ApplyAll(t, us), us) == ApplyAll(t, us)
  {
    var t1 := ApplyAll(t, us);
    var t2 := ApplyAll(t1, us);
    SecondTime(t, us, |us|);
    assert us[..|us|] == us;
    forall name ensures (name in t2.syms <==> name in t1.syms) && Look(t2, name) == Look(t1, name) {
      ApplyLook(t, us, name);
      ApplyLook(t1, us, name);
    }
    hide ApplyAll, Latest, Mentions;
    assert t2.syms == t1.syms by {
      forall name | name in t2.syms ensures t2.syms[name] == t1.syms[name] { assert Look(t2, name) == Look(t1, name); }
    }
  }

  lemma ApplyNone(t: Table)
    ensures ApplyAll(t, []) == t
  {
  }

  /** A table in two steps. */
  lemma {:induction false} ApplyAppend(t: Table, us: seq<Touch>, vs: seq<Touch>)
    ensures ApplyAll(t, us + vs) == ApplyAll(ApplyAll(t, us), vs)
    decreases |vs|
  {
    if vs == [] {
      assert us + vs == us;
    } else {
      assert (us + vs)[..|us + vs| - 1] == us + vs[..|vs| - 1];
      ApplyAppend(t, us, vs[..|vs| - 1]);
    }
  }

  lemma {:induction false} LastDefAppend(us: seq<Touch>, vs: seq<Touch>, name: string)
    ensures LastDef(us + vs, name) == if LastDef(vs, name).Some? then LastDef(vs, name) else LastDef(us, name)
    decreases |vs|
  {
    if vs == [] {
      assert us + vs == us;
    } else {
      assert (us + vs)[..|us + vs| - 1] == us + vs[..|vs| - 1];
      LastDefAppend(us, vs[..|vs| - 1], name);
    }
  }

  // ----- Indices -----

  /** The index of a name, by the search from the front. */
  function IndexIn(names: seq<string>, name: string): (i: nat)
    requires name in names
    ensures i < |names| && names[i] == name
    ensures forall j :: 0 <= j < i ==> names[j] != name
  {
    if names[0] == name then 0
    else
      assert name in names[1..] by {
        var k :| 0 <= k < |names| && names[k] == name;
        assert names[1..][k - 1] == name;
      }
      1 + IndexIn(names[1..], name)
  }

  /** Appending names does not move those that are there. */
  lemma IndexKept(names: seq<string>, names': seq<string>, name: string)
    requires name in names && names <= names'
    ensures name in names' && IndexIn(names', name) == IndexIn(names, name)
  {
    var i := IndexIn(names, name);
    assert names'[i] == names[i] == name;
  }
}
