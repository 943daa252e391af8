/** Little-endian words in byte sequences. */
module Words {
  import opened Prelude

  function Get16(b: seq<Byte>, o: nat): (v: nat)
    requires o + 2 <= |b|
    ensures v < 0x1_0000
  {
    b[o] as nat + 0x100 * b[o + 1] as nat
  }

  function Put16(b: seq<Byte>, o: nat, v: nat): (r: seq<Byte>)
    requires o + 2 <= |b|
    ensures |r| == |b|
  {
    b[o := (v % 0x100) as Byte][o + 1 := (v / 0x100 % 0x100) as Byte]
  }

  function Get32(b: seq<Byte>, o: nat): (v: nat)
    requires o + 4 <= |b|
    ensures v < 0x1_0000_0000
  {
    Get16(b, o) + 0x1_0000 * Get16(b, o + 2)
  }

  function Put32(b: seq<Byte>, o: nat, v: nat): (r: seq<Byte>)
    requires o + 4 <= |b|
    ensures |r| == |b|
  {
    Put16(Put16(b, o, v % 0x1_0000), o + 2, v / 0x1_0000)
  }

  lemma Put16Get(b: seq<Byte>, o: nat, v: nat)
    requires o + 2 <= |b|
    ensures Get16(Put16(b, o, v), o) == v % 0x1_0000
  {
    assert v % 0x100 + 0x100 * (v / 0x100 % 0x100) == v % 0x1_0000;
  }

  lemma Put16Other(b: seq<Byte>, o: nat, v: nat, i: nat)
    requires o + 2 <= |b| && i < |b| && i != o && i != o + 1
    ensures Put16(b, o, v)[i] == b[i]
  {
  }

  lemma Put32Get(b: seq<Byte>, o: nat, v: nat)
    requires o + 4 <= |b| && v < 0x1_0000_0000
    ensures Get32(Put32(b, o, v), o) == v
  {
    var m := Put16(b, o, v % 0x1_0000);
    Put16Get(b, o, v % 0x1_0000);
    Put16Get(m, o + 2, v / 0x1_0000);
    Put16Other(m, o + 2, v / 0x1_0000, o);
    Put16Other(m, o + 2, v / 0x1_0000, o + 1);
  }

  lemma Put32Other(b: seq<Byte>, o: nat, v: nat, i: nat)
    requires o + 4 <= |b| && i < |b| && !(o <= i < o + 4)
    ensures Put32(b, o, v)[i] == b[i]
  {
  }
}
