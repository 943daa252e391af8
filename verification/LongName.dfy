/**
  Long file names: a name is spread over directory entries in descending order, tied to the
  short entry behind them by a checksum, and put together again by a streaming parser.
 */
module LongName {
  import opened Prelude
  import opened Words

  type Entry = e: seq<Byte> | |e| == 32 witness seq(32, _ => 0)

  const LFN_ATTR: Byte := 0x0F
  const MAX_SEQ := 20
  const NAME_SIZE := 256

  predicate Deleted(e: Entry) { e[0] == 0 || e[0] == 0xE5 }

  predicate IsLfn(e: Entry) { e[11] == LFN_ATTR }

  function SeqOf(e: Entry): nat { e[0] as nat % 0x20 }

  predicate IsLast(e: Entry) { e[0] as nat / 0x40 % 2 == 1 }

  // ----- fat_lfn_checksum -----

  function Rotate(sum: nat, b: nat): nat { ((if sum % 2 == 1 then 0x80 else 0) + sum / 2 + b) % 0x100 }

  function Checksum(s: seq<Byte>): nat {
    if s == [] then 0 else Rotate(Checksum(s[..|s| - 1]), s[|s| - 1] as nat)
  }

  method LfnChecksum(s: seq<Byte>) returns (sum: nat)
    requires |s| == 11
    ensures sum == Checksum(s) && sum < 0x100
  {
    sum := 0;
    for i := 0 to 11
      invariant sum == Checksum(s[..i]) && sum < 0x100
    {
      assert s[..i + 1][..i] == s[..i];
      sum := Rotate(sum, s[i] as nat);
    }
    assert s[..11] == s;
  }

  // ----- Characters -----

  /** The 16-bit unit for position x of the name: a terminator, then padding. */
  function Unit(name: seq<Byte>, x: nat): (u: nat)
    ensures u < 0x1_0000
  {
    if x < |name| then name[x] as nat else if x == |name| then 0 else 0xFFFF
  }

  /** count units from position x, as bytes. */
  function Encoded(name: seq<Byte>, x: nat, count: nat): (r: seq<Byte>)
    ensures |r| == 2 * count
  {
    seq(2 * count, i requires 0 <= i < 2 * count =>
      if i % 2 == 0 then (Unit(name, x + i / 2) % 0x100) as Byte else (Unit(name, x + i / 2) / 0x100) as Byte)
  }

  /** decode_lfn_chars from unit i on: stops behind the first terminator or padding. */
  function DecodeField(buf: seq<Byte>, base: nat, e: Entry, off: nat, count: nat, i: nat): (r: seq<Byte>)
    requires i <= count && off + 2 * count <= 32 && base + count <= |buf|
    ensures |r| == |buf|
    decreases count - i
  {
    if i == count then buf
    else
      var u := Get16(e, off + 2 * i);
      if u == 0 || u == 0xFFFF then buf[base + i := 0]
      else DecodeField(buf[base + i := (u % 0x100) as Byte], base, e, off, count, i + 1)
  }

  /** The characters of one entry, unless they would reach the end of the buffer. */
  function DecodeEntry(buf: seq<Byte>, e: Entry): (r: seq<Byte>)
    requires |buf| == NAME_SIZE && 1 <= SeqOf(e) <= MAX_SEQ
    ensures |r| == NAME_SIZE
  {
    var base := (SeqOf(e) - 1) * 13;
    if base + 13 < NAME_SIZE then
      var b1 := DecodeField(buf, base, e, 1, 5, 0);
      var b2 := DecodeField(b1, base + 5, e, 14, 6, 0);
      DecodeField(b2, base + 11, e, 28, 2, 0)
    else buf
  }

  // ----- lfn_parser_feed -----

  datatype Parser = Parser(name: seq<Byte>, checksum: nat, expected: nat, hasLfn: bool, isValid: bool,
                           startSec: nat, startSlot: int, total: nat)

  function Fresh(): (p: Parser)
    ensures |p.name| == NAME_SIZE
  {
    Parser(Zeros(NAME_SIZE), 0, 0, false, false, 0, -1, 0)
  }

  function Feed(p: Parser, e: Entry, sec: nat, slot: nat): (r: Parser)
    requires |p.name| == NAME_SIZE
    ensures |r.name| == NAME_SIZE
  {
    if Deleted(e) then Fresh()
    else if IsLfn(e) then
      var s := SeqOf(e);
      if s == 0 || s > MAX_SEQ then Fresh()
      else if IsLast(e) then
        Parser(DecodeEntry(Fresh().name, e), e[13] as nat, s - 1, true, true, sec, slot, s)
      else if !p.isValid || p.checksum != e[13] as nat || s != p.expected then
        p.(isValid := false, hasLfn := false)
      else
        p.(name := DecodeEntry(p.name, e), expected := s - 1)
    else if p.hasLfn && p.isValid && p.expected == 0 && p.checksum == Checksum(e[..11]) then
      p.(name := p.name[255 := 0])
    else
      p.(hasLfn := false, isValid := false, total := 0)
  }

  /** Slots are numbered through all sectors, sixteen to a sector. */
  function FeedAll(p: Parser, es: seq<Entry>, at: nat): (r: Parser)
    requires |p.name| == NAME_SIZE
    ensures |r.name| == NAME_SIZE
  {
    if es == [] then p
    else
      var n := |es| - 1;
      Feed(FeedAll(p, es[..n], at), es[n], (at + n) / 16, (at + n) % 16)
  }

  lemma {:induction false} FeedAppend(p: Parser, a: seq<Entry>, b: seq<Entry>, at: nat)
    requires |p.name| == NAME_SIZE
    ensures FeedAll(p, a + b, at) == FeedAll(FeedAll(p, a, at), b, at + |a|)
    decreases |b|
  {
    if b == [] {
      assert a + b == a;
    } else {
      var n := |b| - 1;
      assert (a + b)[..|a + b| - 1] == a + b[..n];
      FeedAppend(p, a, b[..n], at);
    }
  }

  // ----- What the parser accepts -----

  /** The part n, n - 1, ... of a descending run that has one checksum and starts with the
      entry marked as last. */
  ghost predicate Run(s: seq<Entry>, n: nat, chk: nat) {
    && 1 <= |s| <= n <= MAX_SEQ
    && (forall j :: 0 <= j < |s| ==> Part(s[j], n - j, chk) && IsLast(s[j]) == (j == 0))
  }

  ghost predicate Part(e: Entry, q: nat, chk: nat) {
    !Deleted(e) && IsLfn(e) && SeqOf(e) == q && e[13] as nat == chk
  }

  /** The name buffer after a run. */
  ghost function Collected(s: seq<Entry>): (r: seq<Byte>)
    requires forall j :: 0 <= j < |s| ==> 1 <= SeqOf(s[j]) <= MAX_SEQ
    ensures |r| == NAME_SIZE
  {
    if s == [] then Zeros(NAME_SIZE) else DecodeEntry(Collected(s[..|s| - 1]), s[|s| - 1])
  }

  /** The parser in the middle of a run. */
  ghost function InRun(s: seq<Entry>, n: nat, chk: nat, at: nat): Parser
    requires Run(s, n, chk)
  {
    assert forall j :: 0 <= j < |s| ==> Part(s[j], n - j, chk);
    Parser(Collected(s), chk, n - |s|, true, true, at / 16, at % 16, n)
  }

  lemma RunPrefix(s: seq<Entry>, n: nat, chk: nat)
    requires Run(s, n, chk) && |s| > 1
    ensures Run(s[..|s| - 1], n, chk)
  {
    hide Part, IsLast;
  }

  /** A run determines the state of the parser, whatever came before. */
  lemma {:induction false} RunFed(p: Parser, s: seq<Entry>, n: nat, chk: nat, at: nat)
    requires |p.name| == NAME_SIZE && Run(s, n, chk)
    ensures FeedAll(p, s, at) == InRun(s, n, chk, at)
  {
    var l := |s| - 1;
    assert Part(s[l], n - l, chk);
    if l == 0 {
      assert s[..l] == [];
      assert Collected(s) == DecodeEntry(Collected(s[..l]), s[l]);
    } else {
      RunPrefix(s, n, chk);
      RunFed(p, s[..l], n, chk, at);
      hide Run, DecodeEntry;
    }
  }

  /** Neither a short entry, which ends a run, nor anything else but deleted and long ones. */
  ghost predicate NoShort(es: seq<Entry>) { forall i :: 0 <= i < |es| ==> Deleted(es[i]) || IsLfn(es[i]) }

  /** The suffix from i on is a run, which left the parser in state p. */
  ghost predicate RunFrom(es: seq<Entry>, i: nat, p: Parser, at: nat) {
    i < |es| && Run(es[i..], p.total, p.checksum) && p == InRun(es[i..], p.total, p.checksum, at + i)
  }

  /** The parser is in a valid state only because of such a suffix. */
  lemma {:induction false} ValidOnlyInRun(es: seq<Entry>, at: nat)
    requires NoShort(es)
    ensures var p := FeedAll(Fresh(), es, at);
      p.hasLfn == p.isValid && (p.isValid ==> exists i :: RunFrom(es, i, p, at))
  {
    if es != [] {
      var n := |es| - 1;
      var e := es[n];
      ValidOnlyInRun(es[..n], at);
      var q := FeedAll(Fresh(), es[..n], at);
      var p := FeedAll(Fresh(), es, at);
      assert Deleted(e) || IsLfn(e);
      assert p == Feed(q, e, (at + n) / 16, (at + n) % 16);
      if p.isValid {
        if IsLast(e) {
          assert es[n..] == [e];
          assert Run([e], p.total, p.checksum);
          RunFed(q, [e], p.total, p.checksum, at + n);
          assert [e][..0] == [];
          assert RunFrom(es, n, p, at);
        } else {
          var i :| RunFrom(es[..n], i, q, at);
          ExtendRun(es, n, i, q, at);
        }
      }
    }
  }

  lemma ExtendRun(es: seq<Entry>, n: nat, i: nat, q: Parser, at: nat)
    requires n == |es| - 1 && RunFrom(es[..n], i, q, at)
    requires Part(es[n], q.expected, q.checksum) && !IsLast(es[n]) && q.expected >= 1
    ensures RunFrom(es, i, Feed(q, es[n], (at + n) / 16, (at + n) % 16), at)
  {
    var s := es[i..];
    assert s[..|s| - 1] == es[..n][i..];
    assert s[|s| - 1] == es[n];
    assert Run(s, q.total, q.checksum) by {
      hide Part;
      forall j | 0 <= j < |s| ensures Part(s[j], q.total - j, q.checksum) && IsLast(s[j]) == (j == 0) {
        if j < |s| - 1 { assert s[j] == es[..n][i..][j]; }
      }
    }
  }

  ghost predicate AcceptedAt(es: seq<Entry>, short: Entry, i: nat) {
    i < |es| && Run(es[i..], |es| - i, Checksum(short[..11]))
  }

  /** What is reported for the run from i on. */
  ghost predicate Reports(r: Parser, es: seq<Entry>, short: Entry, i: nat, at: nat)
    requires AcceptedAt(es, short, i)
  {
    var p := InRun(es[i..], |es| - i, Checksum(short[..11]), at + i);
    r == p.(name := p.name[255 := 0])
  }

  lemma FeedLast(p: Parser, es: seq<Entry>, e: Entry, at: nat)
    requires |p.name| == NAME_SIZE
    ensures FeedAll(p, es + [e], at) == Feed(FeedAll(p, es, at), e, (at + |es|) / 16, (at + |es|) % 16)
  {
    var all := es + [e];
    assert all[..|es|] == es;
  }

  /** Whatever came before the run. */
  lemma AcceptedState(es: seq<Entry>, short: Entry, i: nat, at: nat)
    requires !Deleted(short) && !IsLfn(short) && AcceptedAt(es, short, i)
    ensures Reports(FeedAll(Fresh(), es + [short], at), es, short, i, at)
  {
    hide Checksum, Run, FeedAll, Collected;
    FeedLast(Fresh(), es, short, at);
    FeedAppend(Fresh(), es[..i], es[i..], at);
    assert es[..i] + es[i..] == es;
    RunFed(FeedAll(Fresh(), es[..i], at), es[i..], |es| - i, Checksum(short[..11]), at + i);
  }

  /** From reset, long entries followed by a short one are accepted if and only if some suffix
      of them is a complete descending run n..1 that carries the checksum of the short name;
      that suffix is then what the parser reports. */
  lemma AcceptedExactly(es: seq<Entry>, short: Entry, at: nat)
    requires NoShort(es) && !Deleted(short) && !IsLfn(short)
    ensures var r := FeedAll(Fresh(), es + [short], at);
      && (r.hasLfn && r.isValid <==> exists i :: AcceptedAt(es, short, i))
      && (forall i: nat :: AcceptedAt(es, short, i) ==> Reports(r, es, short, i, at))
      && (!r.isValid ==> !r.hasLfn && r.total == 0)
  {
    var q := FeedAll(Fresh(), es, at);
    var r := FeedAll(Fresh(), es + [short], at);
    FeedLast(Fresh(), es, short, at);
    ValidOnlyInRun(es, at);
    hide Run, Checksum, FeedAll;
    forall i: nat | AcceptedAt(es, short, i) ensures Reports(r, es, short, i, at) {
      AcceptedState(es, short, i, at);
    }
    if r.hasLfn && r.isValid {
      var i :| RunFrom(es, i, q, at);
      assert AcceptedAt(es, short, i);
    }
  }

  // ----- The writer -----

  /** The number of long entries for a name of this length. */
  function PartCount(len: nat): nat { (len + 12) / 13 }

  /** The entry with part q of n. */
  function LfnEntry(name: seq<Byte>, n: nat, q: nat, chk: Byte): (e: Entry)
    requires 1 <= q <= n <= MAX_SEQ
  {
    [(if q == n then 0x40 + q else q) as Byte] + Encoded(name, (q - 1) * 13, 5) + [LFN_ATTR, 0, chk]
      + Encoded(name, (q - 1) * 13 + 5, 6) + [0, 0] + Encoded(name, (q - 1) * 13 + 11, 2)
  }

  /** Parts n, n - 1, ..., n - k + 1. */
  function LfnEntries(name: seq<Byte>, n: nat, chk: Byte, k: nat): (r: seq<Entry>)
    requires k <= n <= MAX_SEQ
    ensures |r| == k && forall j :: 0 <= j < k ==> r[j] == LfnEntry(name, n, n - j, chk)
  {
    seq(k, j requires 0 <= j < k => LfnEntry(name, n, n - j, chk))
  }

  lemma EncodedUnits(name: seq<Byte>, x: nat, count: nat, b: seq<Byte>, off: nat, i: nat)
    requires i < count && off + 2 * count <= |b| && b[off..off + 2 * count] == Encoded(name, x, count)
    ensures Get16(b, off + 2 * i) == Unit(name, x + i)
  {
    assert b[off + 2 * i] == b[off..off + 2 * count][2 * i];
    assert b[off + 2 * i + 1] == b[off..off + 2 * count][2 * i + 1];
  }

  lemma EntryFields(name: seq<Byte>, n: nat, q: nat, chk: Byte)
    requires 1 <= q <= n <= MAX_SEQ
    ensures var e := LfnEntry(name, n, q, chk);
      && Part(e, q, chk as nat) && IsLast(e) == (q == n)
      && e[1..11] == Encoded(name, (q - 1) * 13, 5)
      && e[14..26] == Encoded(name, (q - 1) * 13 + 5, 6)
      && e[28..32] == Encoded(name, (q - 1) * 13 + 11, 2)
  {
    hide Encoded;
  }

  lemma WrittenIsRun(name: seq<Byte>, n: nat, chk: Byte, k: nat)
    requires 1 <= k <= n <= MAX_SEQ
    ensures Run(LfnEntries(name, n, chk, k), n, chk as nat)
  {
    var s := LfnEntries(name, n, chk, k);
    forall j | 0 <= j < |s| ensures Part(s[j], n - j, chk as nat) && IsLast(s[j]) == (j == 0) {
      EntryFields(name, n, n - j, chk);
    }
  }

  /** The terminated string in a buffer. */
  ghost predicate IsString(buf: seq<Byte>, s: seq<Byte>) {
    |s| < |buf| && buf[..|s|] == s && buf[|s|] == 0 && 0 !in s
  }

  ghost predicate NonZero(s: seq<Byte>) { forall i :: 0 <= i < |s| ==> s[i] != 0 }

  /** What is at position x after the field [base, base + count) was decoded up to unit i. */
  ghost predicate Decoding(buf0: seq<Byte>, buf: seq<Byte>, name: seq<Byte>, base: nat, i: nat) {
    && |buf| == |buf0|
    && forall x :: 0 <= x < |buf| ==> buf[x] == if base <= x < base + i then CharAt(name, x) else buf0[x]
  }

  ghost function CharAt(name: seq<Byte>, x: nat): Byte { if x < |name| then name[x] else 0 }

  /** Decoding an encoded field fills in its part of the name. */
  lemma {:induction false} FieldDecoded(buf0: seq<Byte>, buf: seq<Byte>, name: seq<Byte>, base: nat, e: Entry,
                                        off: nat, count: nat, i: nat)
    requires i <= count && off + 2 * count <= 32 && base + count <= |buf| && NonZero(name)
    requires e[off..off + 2 * count] == Encoded(name, base, count)
    requires Decoding(buf0, buf, name, base, i)
    requires forall x :: base <= x < base + count ==> buf0[x] == 0
    ensures Decoding(buf0, DecodeField(buf, base, e, off, count, i), name, base, count)
    decreases count - i
  {
    if i < count {
      EncodedUnits(name, base, count, e, off, i);
      hide Get16, Encoded;
      if base + i < |name| {
        assert name[base + i] != 0;
        FieldDecoded(buf0, buf[base + i := name[base + i]], name, base, e, off, count, i + 1);
      }
    }
  }

  /** The buffer when the parts above q have been decoded. */
  ghost function Tail(name: seq<Byte>, q: nat): (r: seq<Byte>)
    ensures |r| == NAME_SIZE
  {
    seq(NAME_SIZE, x requires 0 <= x < NAME_SIZE => if 13 * q <= x < 247 then CharAt(name, x) else 0)
  }

  lemma TailStep(name: seq<Byte>, q: nat, b1: seq<Byte>, b2: seq<Byte>, b3: seq<Byte>)
    requires 1 <= q < MAX_SEQ
    requires var x := (q - 1) * 13;
      && Decoding(Tail(name, q), b1, name, x, 5) && Decoding(b1, b2, name, x + 5, 6)
      && Decoding(b2, b3, name, x + 11, 2)
    ensures b3 == Tail(name, q - 1)
  {
    hide CharAt;
  }

  /** Three encoded fields, decoded below the parts that are there already. */
  lemma FieldsDecoded(name: seq<Byte>, q: nat, e: Entry)
    requires 1 <= q < MAX_SEQ && NonZero(name) && SeqOf(e) == q
    requires e[1..11] == Encoded(name, (q - 1) * 13, 5)
    requires e[14..26] == Encoded(name, (q - 1) * 13 + 5, 6)
    requires e[28..32] == Encoded(name, (q - 1) * 13 + 11, 2)
    ensures DecodeEntry(Tail(name, q), e) == Tail(name, q - 1)
  {
    var base := (q - 1) * 13;
    var b0 := Tail(name, q);
    var b1 := DecodeField(b0, base, e, 1, 5, 0);
    var b2 := DecodeField(b1, base + 5, e, 14, 6, 0);
    assert forall x :: base <= x < base + 13 ==> b0[x] == 0;
    hide Encoded, DecodeField, Tail, CharAt;
    FieldDecoded(b0, b0, name, base, e, 1, 5, 0);
    FieldDecoded(b1, b1, name, base + 5, e, 14, 6, 0);
    FieldDecoded(b2, b2, name, base + 11, e, 28, 2, 0);
    TailStep(name, q, b1, b2, DecodeField(b2, base + 11, e, 28, 2, 0));
  }

  lemma EntryDecoded(name: seq<Byte>, n: nat, q: nat, chk: Byte)
    requires 1 <= q <= n <= MAX_SEQ && NonZero(name)
    ensures SeqOf(LfnEntry(name, n, q, chk)) == q
    ensures DecodeEntry(Tail(name, q), LfnEntry(name, n, q, chk)) == Tail(name, q - 1)
  {
    EntryFields(name, n, q, chk);
    hide LfnEntry, Encoded, DecodeField;
    if q < MAX_SEQ {
      FieldsDecoded(name, q, LfnEntry(name, n, q, chk));
    }
  }

  lemma TailEmpty(name: seq<Byte>, n: nat)
    requires |name| <= 13 * n
    ensures Tail(name, n) == Zeros(NAME_SIZE)
  {
  }

  lemma WrittenSeqs(name: seq<Byte>, n: nat, chk: Byte, k: nat)
    requires k <= n <= MAX_SEQ
    ensures forall j :: 0 <= j < k ==> SeqOf(LfnEntries(name, n, chk, k)[j]) == n - j
  {
    forall j | 0 <= j < k ensures SeqOf(LfnEntries(name, n, chk, k)[j]) == n - j { EntryFields(name, n, n - j, chk); }
  }

  lemma {:induction false} WrittenCollected(name: seq<Byte>, n: nat, chk: Byte, k: nat)
    requires k <= n <= MAX_SEQ && NonZero(name) && |name| <= 13 * n
    ensures forall j :: 0 <= j < k ==> SeqOf(LfnEntries(name, n, chk, k)[j]) == n - j
    ensures Collected(LfnEntries(name, n, chk, k)) == Tail(name, n - k)
  {
    WrittenSeqs(name, n, chk, k);
    hide LfnEntry, DecodeEntry, SeqOf, Tail;
    if k == 0 {
      TailEmpty(name, n);
    } else {
      WrittenCollected(name, n, chk, k - 1);
      EntryDecoded(name, n, n - k + 1, chk);
      EntriesGrow(name, n, chk, k);
      hide LfnEntries;
      CollectedStep(LfnEntries(name, n, chk, k - 1), LfnEntry(name, n, n - k + 1, chk));
    }
  }

  lemma EntriesGrow(name: seq<Byte>, n: nat, chk: Byte, k: nat)
    requires 1 <= k <= n <= MAX_SEQ
    ensures LfnEntries(name, n, chk, k) == LfnEntries(name, n, chk, k - 1) + [LfnEntry(name, n, n - k + 1, chk)]
  {
    hide LfnEntry;
  }

  lemma CollectedStep(s: seq<Entry>, e: Entry)
    requires forall j :: 0 <= j < |s + [e]| ==> 1 <= SeqOf((s + [e])[j]) <= MAX_SEQ
    ensures 1 <= SeqOf(e) <= MAX_SEQ && (forall j :: 0 <= j < |s| ==> 1 <= SeqOf(s[j]) <= MAX_SEQ)
    ensures Collected(s + [e]) == DecodeEntry(Collected(s), e)
  {
    hide DecodeEntry, SeqOf;
    assert (s + [e])[|s|] == e;
    forall j | 0 <= j < |s| ensures 1 <= SeqOf(s[j]) <= MAX_SEQ { assert (s + [e])[j] == s[j]; }
    assert (s + [e])[..|s|] == s;
  }

  /** The result of parsing what was written: the name, cut off at 247 characters. */
  ghost predicate Restored(r: Parser, name: seq<Byte>, at: nat) {
    && r.hasLfn && r.isValid
    && r.startSec == at / 16 && r.startSlot == at % 16 && r.total == PartCount(|name|)
    && IsString(r.name, if |name| <= 247 then name else name[..247])
  }

  /** Feeding the written entries and their short entry to a parser in any state. */
  lemma LongNameRoundTrip(p: Parser, name: seq<Byte>, short: Entry, at: nat)
    requires |p.name| == NAME_SIZE && 1 <= |name| <= 255 && NonZero(name)
    requires !Deleted(short) && !IsLfn(short)
    ensures var n := PartCount(|name|); 1 <= n <= MAX_SEQ
    ensures Checksum(short[..11]) < 0x100
    ensures var n := PartCount(|name|); var w := LfnEntries(name, n, Checksum(short[..11]) as Byte, n);
      Restored(FeedAll(p, w + [short], at), name, at)
  {
    var n := PartCount(|name|);
    var chk := Checksum(short[..11]);
    var s := LfnEntries(name, n, chk as Byte, n);
    WrittenIsRun(name, n, chk as Byte, n);
    WrittenCollected(name, n, chk as Byte, n);
    RunFed(p, s, n, chk, at);
    assert (s + [short])[..n] == s;
    hide LfnEntry, LfnEntries, Collected, DecodeEntry, Part, Run, Checksum;
    assert FeedAll(p, s + [short], at) == Feed(FeedAll(p, s, at), short, (at + n) / 16, (at + n) % 16);
    hide FeedAll, Feed;
    TailString(name);
  }

  lemma TailString(name: seq<Byte>)
    requires |name| <= 255 && NonZero(name)
    ensures IsString(Tail(name, 0)[255 := 0], if |name| <= 247 then name else name[..247])
  {
  }

  /** The name comes back whole if and only if the twentieth entry is not needed. */
  lemma RestoredExactly(r: Parser, name: seq<Byte>, at: nat)
    requires Restored(r, name, at) && NonZero(name)
    ensures IsString(r.name, name) <==> |name| <= 247
  {
    assert |name| > 247 ==> name[247] != 0;
  }

  // ----- The parser as the driver keeps it -----

  class LfnParser {
    const name: array<Byte>
    var checksum: nat
    var expected: nat
    var hasLfn: bool
    var isValid: bool
    var startSec: nat
    var startSlot: int
    var total: nat

    ghost predicate Valid() { name.Length == NAME_SIZE }

    ghost function State(): (p: Parser)
      reads this, name
      requires Valid()
      ensures |p.name| == NAME_SIZE
    {
      Parser(name[..], checksum, expected, hasLfn, isValid, startSec, startSlot, total)
    }

    constructor ()
      ensures Valid() && fresh(name) && State() == Fresh()
    {
      name := new Byte[NAME_SIZE](_ => 0);
      checksum, expected, hasLfn, isValid, startSec, startSlot, total := 0, 0, false, false, 0, -1, 0;
      new;
      assert name[..] == Zeros(NAME_SIZE);
    }

    method Reset()
      requires Valid()
      modifies this, name
      ensures State() == Fresh()
    {
      for i := 0 to NAME_SIZE
        invariant forall x :: 0 <= x < i ==> name[x] == 0
      {
        name[i] := 0;
      }
      checksum, expected, hasLfn, isValid, startSec, startSlot, total := 0, 0, false, false, 0, -1, 0;
      assert name[..] == Zeros(NAME_SIZE);
    }

    /** One field of an entry into the buffer at base. */
    method DecodeChars(e: Entry, off: nat, count: nat, base: nat)
      requires Valid() && off + 2 * count <= 32 && base + count <= NAME_SIZE
      modifies name
      ensures name[..] == DecodeField(old(name[..]), base, e, off, count, 0)
    {
      var i := 0;
      while i < count
        invariant i <= count
        invariant DecodeField(name[..], base, e, off, count, i) == DecodeField(old(name[..]), base, e, off, count, 0)
      {
        var u := Get16(e, off + 2 * i);
        ghost var b := name[..];
        if u == 0 || u == 0xFFFF {
          name[base + i] := 0;
          assert name[..] == b[base + i := 0];
          return;
        }
        name[base + i] := (u % 0x100) as Byte;
        assert name[..] == b[base + i := (u % 0x100) as Byte];
        i := i + 1;
      }
    }

    /** lfn_parser_feed. */
    method FeedEntry(e: Entry, sec: nat, slot: nat)
      requires Valid()
      modifies this, name
      ensures State() == Feed(old(State()), e, sec, slot)
    {
      hide DecodeField, Checksum;
      if Deleted(e) {
        Reset();
        return;
      }
      if IsLfn(e) {
        var s := SeqOf(e);
        if s == 0 || s > MAX_SEQ {
          Reset();
          return;
        }
        if IsLast(e) {
          Reset();
          checksum, expected, hasLfn, isValid := e[13] as nat, s, true, true;
          startSec, startSlot, total := sec, slot, s;
        } else if !isValid || checksum != e[13] as nat || s != expected {
          isValid, hasLfn := false, false;
          return;
        }
        var base := (s - 1) * 13;
        if base + 13 < NAME_SIZE {
          DecodeChars(e, 1, 5, base);
          DecodeChars(e, 14, 6, base + 5);
          DecodeChars(e, 28, 2, base + 11);
        }
        expected := expected - 1;
      } else {
        var sum := LfnChecksum(e[..11]);
        if hasLfn && isValid && expected == 0 && checksum == sum {
          name[255] := 0;
        } else {
          hasLfn, isValid, total := false, false, 0;
        }
      }
    }
  }
}
