/**
  The fixed root directory of a FAT volume: finding an entry by its long or short name,
  choosing a run of free slots, and writing the entries of a new file.
 */
module Directory {
  import opened Prelude
  import opened LongName

  // ----- Slots -----

  /** Slot k, counted through all sectors of the device. */
  function Slot(d: seq<Sector>, k: nat): (e: Entry)
    requires k < 16 * |d|
  {
    d[k / 16][32 * (k % 16)..32 * (k % 16) + 32]
  }

  function PatchBytes(s: Sector, o: nat, e: Entry): (r: Sector)
    requires o + 32 <= SECTOR
  {
    s[..o] + e + s[o + 32..]
  }

  function PutSlot(d: seq<Sector>, k: nat, e: Entry): (r: seq<Sector>)
    requires k < 16 * |d|
    ensures |r| == |d|
  {
    d[k / 16 := PatchBytes(d[k / 16], 32 * (k % 16), e)]
  }

  /** What a patch leaves and what it puts there. */
  lemma SpliceGet(s: seq<Byte>, o: nat, e: seq<Byte>, a: nat, b: nat)
    requires o + |e| <= |s| && a <= b <= |s|
    ensures var r := s[..o] + e + s[o + |e|..];
      && |r| == |s| && r[o..o + |e|] == e
      && (b <= o || o + |e| <= a ==> r[a..b] == s[a..b])
  {
    var r := s[..o] + e + s[o + |e|..];
    if b <= o || o + |e| <= a {
      assert forall k :: a <= k < b ==> r[k] == s[k];
    }
  }

  lemma PatchGet(s: Sector, i: nat, e: Entry, j: nat)
    requires i < 16 && j < 16
    ensures PatchBytes(s, 32 * i, e)[32 * j..32 * j + 32] == if i == j then e else s[32 * j..32 * j + 32]
  {
    SpliceGet(s, 32 * i, e, 32 * j, 32 * j + 32);
  }

  lemma SlotPut(d: seq<Sector>, k: nat, e: Entry, j: nat)
    requires k < 16 * |d| && j < 16 * |d|
    ensures Slot(PutSlot(d, k, e), j) == if j == k then e else Slot(d, j)
  {
    if j / 16 == k / 16 {
      PatchGet(d[k / 16], k % 16, e, j % 16);
    }
  }

  /** Entries w from slot k on, and nothing else changed. */
  ghost predicate Placed(d0: seq<Sector>, d: seq<Sector>, k: nat, w: seq<Entry>) {
    && |d| == |d0| && k + |w| <= 16 * |d|
    && (forall j :: 0 <= j < 16 * |d| ==> Slot(d, j) == if k <= j < k + |w| then w[j - k] else Slot(d0, j))
  }

  lemma PlaceMore(d0: seq<Sector>, d: seq<Sector>, k: nat, w: seq<Entry>, e: Entry)
    requires Placed(d0, d, k, w) && k + |w| < 16 * |d|
    ensures Placed(d0, PutSlot(d, k + |w|, e), k, w + [e])
  {
    var d' := PutSlot(d, k + |w|, e);
    forall j | 0 <= j < 16 * |d| ensures Slot(d', j) == if k <= j < k + |w| + 1 then (w + [e])[j - k] else Slot(d0, j) {
      SlotPut(d, k + |w|, e, j);
    }
  }

  // ----- Names -----

  function Upper(c: Byte): Byte { if 97 <= c <= 122 then c - 32 else c }

  predicate NameEquals(a: seq<Byte>, b: seq<Byte>) {
    |a| == |b| && forall i :: 0 <= i < |a| ==> Upper(a[i]) == Upper(b[i])
  }

  /** The string that starts in a buffer, up to its terminator. */
  function CString(buf: seq<Byte>): (s: seq<Byte>)
    ensures |s| <= |buf| && buf[..|s|] == s && 0 !in s && (|s| < |buf| ==> buf[|s|] == 0)
  {
    if buf == [] || buf[0] == 0 then [] else [buf[0]] + CString(buf[1..])
  }

  lemma StringIs(buf: seq<Byte>, s: seq<Byte>)
    requires IsString(buf, s)
    ensures CString(buf) == s
  {
  }

  /** The characters up to the first blank. */
  function Trimmed(s: seq<Byte>): seq<Byte> {
    if s == [] || s[0] == 32 then [] else [s[0]] + Trimmed(s[1..])
  }

  /** format_fat_name. */
  function Formatted(raw: seq<Byte>): seq<Byte>
    requires |raw| == 11
  {
    if raw[0] == 46 && raw[1] == 32 then [46]
    else if raw[0] == 46 && raw[1] == 46 && raw[2] == 32 then [46, 46]
    else Trimmed(raw[..8]) + if raw[8] != 32 then [46] + Trimmed(raw[8..]) else []
  }

  predicate Skipped(e: Entry) { IsLfn(e) || e[11] as nat / 8 % 2 == 1 }

  predicate Matches(p: Parser, e: Entry, name: seq<Byte>) {
    || (p.hasLfn && p.isValid && NameEquals(CString(p.name), name))
    || NameEquals(CString(Formatted(e[..11])), name)
  }

  // ----- Upper and lower case -----

  /** The same character, or the two cases of one letter of the alphabet. */
  predicate SameLetter(a: Byte, b: Byte) {
    || a == b
    || (65 <= a <= 90 && b as int == a as int + 32)
    || (65 <= b <= 90 && a as int == b as int + 32)
  }

  /** Names that differ at most in the case of their letters. */
  ghost predicate SameName(a: seq<Byte>, b: seq<Byte>) {
    |a| == |b| && forall i :: 0 <= i < |a| ==> SameLetter(a[i], b[i])
  }

  lemma EqualsExactly(a: seq<Byte>, b: seq<Byte>)
    ensures NameEquals(a, b) <==> SameName(a, b)
  {
    forall i | 0 <= i < |a| && i < |b| ensures Upper(a[i]) == Upper(b[i]) <==> SameLetter(a[i], b[i]) {
      LetterExactly(a[i], b[i]);
    }
  }

  lemma LetterExactly(a: Byte, b: Byte)
    ensures Upper(a) == Upper(b) <==> SameLetter(a, b)
  {
  }

  // ----- fat_dir_find_entry -----

  /** The entries w lie in the slots from at on. */
  ghost predicate Lies(d: seq<Sector>, at: nat, w: seq<Entry>) {
    at + |w| <= 16 * |d| && forall k :: at <= k < at + |w| ==> Slot(d, k) == w[k - at]
  }

  datatype Found = Found(slot: nat, hasLfn: bool, startSec: nat, startSlot: int, count: nat)

  function FoundAt(k: nat, p: Parser): Found {
    Found(k, p.hasLfn && p.isValid, p.startSec, p.startSlot, p.total)
  }

  /** What one slot means for the search. */
  datatype Visit = End | Hit(p: Parser) | Next(p: Parser)

  function VisitSlot(p: Parser, e: Entry, k: nat, name: seq<Byte>): (v: Visit)
    requires |p.name| == NAME_SIZE
    ensures v.End? <==> e[0] == 0
    ensures !v.End? ==> |v.p.name| == NAME_SIZE
  {
    if e[0] == 0 then End
    else if e[0] == 0xE5 then Next(Fresh())
    else
      var q := Feed(p, e, k / 16, k % 16);
      if Skipped(e) then Next(q) else if Matches(q, e, name) then Hit(q) else Next(Fresh())
  }

  /** The first match in the slots [k, hi), before the end mark. */
  function FindFrom(d: seq<Sector>, k: nat, hi: nat, p: Parser, name: seq<Byte>): (r: Option<Found>)
    requires hi <= 16 * |d| && |p.name| == NAME_SIZE
    decreases hi - k
  {
    if k >= hi then None
    else
      match VisitSlot(p, Slot(d, k), k, name)
      case End => None
      case Hit(q) => Some(FoundAt(k, q))
      case Next(q) => FindFrom(d, k + 1, hi, q, name)
  }

  ghost predicate EndBetween(d: seq<Sector>, lo: nat, hi: nat)
    requires hi <= 16 * |d|
  {
    exists k :: lo <= k < hi && Slot(d, k)[0] == 0
  }

  /** What a search stops at: a used entry, neither a long one nor a volume label, whose long name,
      if one was put together in front of it, or whose short name is the name but for case. */
  lemma HitExactly(p: Parser, e: Entry, k: nat, name: seq<Byte>)
    requires |p.name| == NAME_SIZE
    ensures var v := VisitSlot(p, e, k, name); var q := Feed(p, e, k / 16, k % 16);
      && (v.Hit? <==>
            && e[0] != 0 && e[0] != 0xE5 && e[11] != 0x0F && !Bit(e[11] as nat, 3)
            && (|| (q.hasLfn && q.isValid && SameName(CString(q.name), name))
                || SameName(CString(Formatted(e[..11])), name)))
      && (v.End? <==> e[0] == 0)
      && (v.Hit? ==> v.p == q)
  {
    hide Feed, CString, Formatted, Fresh, NameEquals, SameName;
    var q := Feed(p, e, k / 16, k % 16);
    EqualsExactly(CString(q.name), name);
    EqualsExactly(CString(Formatted(e[..11])), name);
    LabelBit(e[11] as nat);
  }

  lemma LabelBit(x: nat)
    ensures Bit(x, 3) <==> x / 8 % 2 == 1
  {
    assert x / 2 / 2 / 2 == x / 8;
    assert Bit(x, 3) == Bit(x / 2, 2) == Bit(x / 2 / 2, 1) == Bit(x / 2 / 2 / 2, 0);
  }

  /** The search does not tell names apart that differ in case only. */
  lemma {:induction false} FindCaseless(d: seq<Sector>, k: nat, hi: nat, p: Parser, name: seq<Byte>, name': seq<Byte>)
    requires hi <= 16 * |d| && |p.name| == NAME_SIZE && SameName(name, name')
    ensures FindFrom(d, k, hi, p, name') == FindFrom(d, k, hi, p, name)
    decreases hi - k
  {
    if k < hi {
      hide Slot;
      VisitCaseless(p, Slot(d, k), k, name, name');
      hide VisitSlot, SameName;
      var v := VisitSlot(p, Slot(d, k), k, name);
      if v.Next? { FindCaseless(d, k + 1, hi, v.p, name, name'); }
    }
  }

  lemma VisitCaseless(p: Parser, e: Entry, k: nat, name: seq<Byte>, name': seq<Byte>)
    requires |p.name| == NAME_SIZE && SameName(name, name')
    ensures VisitSlot(p, e, k, name') == VisitSlot(p, e, k, name)
  {
    hide Feed, CString, Formatted, Fresh, NameEquals, SameName;
    var q := Feed(p, e, k / 16, k % 16);
    EqualsSame(CString(q.name), name, name');
    EqualsSame(CString(Formatted(e[..11])), name, name');
  }

  lemma EqualsSame(a: seq<Byte>, b: seq<Byte>, b': seq<Byte>)
    requires SameName(b, b')
    ensures NameEquals(a, b') == NameEquals(a, b)
  {
    forall i | 0 <= i < |b| ensures Upper(b[i]) == Upper(b'[i]) { LetterExactly(b[i], b'[i]); }
  }

  /** The short entry "README  TXT" in the first slot is found as "readme.txt", without long entries. */
  lemma FindsReadme(d: seq<Sector>, e: Entry, hi: nat)
    requires 0 < hi <= 16 * |d| && Slot(d, 0) == e && e[11] == 0x20
    requires e[..11] == [82, 69, 65, 68, 77, 69, 32, 32, 84, 88, 84]
    ensures var r := FindFrom(d, 0, hi, Fresh(), [114, 101, 97, 100, 109, 101, 46, 116, 120, 116]);
      r == Some(Found(0, false, 0, -1, 0))
  {
    hide Slot, Feed, FindFrom, Fresh, VisitSlot, NameEquals, SameName, Formatted, CString, Bit;
    var name: seq<Byte> := [114, 101, 97, 100, 109, 101, 46, 116, 120, 116];
    var upper: seq<Byte> := [82, 69, 65, 68, 77, 69, 46, 84, 88, 84];
    assert e[0] == e[..11][0];
    ReadmeForm(e[..11]);
    ReadmeNames(upper, name);
    FindStep(d, 0, hi, Fresh(), name);
    HitExactly(Fresh(), e, 0, name);
    LabelBit(0x20);
    ShortFed(e);
  }

  lemma ShortFed(e: Entry)
    requires e[0] != 0 && e[0] != 0xE5 && e[11] != 15
    ensures FoundAt(0, Feed(Fresh(), e, 0, 0)) == Found(0, false, 0, -1, 0)
  {
  }

  lemma ReadmeNames(upper: seq<Byte>, name: seq<Byte>)
    requires upper == [82, 69, 65, 68, 77, 69, 46, 84, 88, 84]
    requires name == [114, 101, 97, 100, 109, 101, 46, 116, 120, 116]
    ensures CString(upper) == upper && SameName(upper, name)
  {
    CStringAll(upper);
    hide CString;
  }

  lemma ReadmeForm(raw: seq<Byte>)
    requires raw == [82, 69, 65, 68, 77, 69, 32, 32, 84, 88, 84]
    ensures Formatted(raw) == [82, 69, 65, 68, 77, 69, 46, 84, 88, 84]
  {
    TrimmedField([82, 69, 65, 68, 77, 69], 8, raw[..8]);
    TrimmedField([84, 88, 84], 3, raw[8..]);
    hide Trimmed;
  }

  /** Two directories that agree up to slot m, the first without a match: a search in the
      second finds the end mark, or goes on at m. */
  lemma {:induction false} FindSkips(d: seq<Sector>, d': seq<Sector>, k: nat, m: nat,
                                     hi: nat, p: Parser, name: seq<Byte>)
    returns (q: Parser)
    requires |d'| == |d| && k <= m <= hi <= 16 * |d| && |p.name| == NAME_SIZE
    requires forall j :: k <= j < m ==> Slot(d', j) == Slot(d, j)
    requires FindFrom(d, k, hi, p, name) == None
    ensures |q.name| == NAME_SIZE
    ensures FindFrom(d', k, hi, p, name) == if EndBetween(d, k, m) then None else FindFrom(d', m, hi, q, name)
    decreases m - k
  {
    q := p;
    hide VisitSlot, Slot;
    if k < m {
      assert Slot(d', k) == Slot(d, k);
      var v := VisitSlot(p, Slot(d, k), k, name);
      if v.End? {
        assert EndBetween(d, k, m);
      } else {
        q := FindSkips(d, d', k + 1, m, hi, v.p, name);
        assert EndBetween(d, k, m) == EndBetween(d, k + 1, m);
      }
    }
  }

  lemma VisitLong(p: Parser, e: Entry, k: nat, name: seq<Byte>)
    requires |p.name| == NAME_SIZE && IsLfn(e) && !Deleted(e)
    ensures VisitSlot(p, e, k, name) == Next(Feed(p, e, k / 16, k % 16))
  {
    hide Feed, Matches;
  }

  /** Long entries only feed the parser. */
  lemma {:induction false} FindFeeds(d: seq<Sector>, k: nat, w: seq<Entry>, hi: nat, p: Parser, name: seq<Byte>)
    requires k + |w| <= hi <= 16 * |d| && |p.name| == NAME_SIZE
    requires Lies(d, k, w) && forall j :: 0 <= j < |w| ==> IsLfn(w[j]) && !Deleted(w[j])
    ensures FindFrom(d, k, hi, p, name) == FindFrom(d, k + |w|, hi, FeedAll(p, w, k), name)
    decreases |w|
  {
    hide Feed, FindFrom, VisitSlot, Slot, FeedAll, Lies, IsLfn, Deleted;
    if w == [] {
      FeedNone(p, k);
    } else {
      var n := |w| - 1;
      var q := FeedAll(p, w[..n], k);
      LiesPrefix(d, k, w);
      FindFeeds(d, k, w[..n], hi, p, name);
      assert w == w[..n] + [w[n]];
      FeedLast(p, w[..n], w[n], k);
      VisitLong(q, w[n], k + n, name);
      FindStep(d, k + n, hi, q, name);
    }
  }

  lemma FeedNone(p: Parser, k: nat)
    requires |p.name| == NAME_SIZE
    ensures FeedAll(p, [], k) == p
  {
  }

  lemma LiesPrefix(d: seq<Sector>, at: nat, w: seq<Entry>)
    requires Lies(d, at, w) && w != []
    ensures Lies(d, at, w[..|w| - 1]) && at + |w| - 1 < 16 * |d| && Slot(d, at + |w| - 1) == w[|w| - 1]
  {
    hide Slot;
  }

  lemma FindStep(d: seq<Sector>, k: nat, hi: nat, p: Parser, name: seq<Byte>)
    requires k < hi <= 16 * |d| && |p.name| == NAME_SIZE
    ensures FindFrom(d, k, hi, p, name) ==
      match VisitSlot(p, Slot(d, k), k, name)
      case End => None
      case Hit(q) => Some(FoundAt(k, q))
      case Next(q) => FindFrom(d, k + 1, hi, q, name)
  {
    hide VisitSlot, Slot;
  }

  // ----- Creating and finding -----

  const DOT: Byte := 46

  /** Characters that a short name cannot have. */
  predicate NotShort(c: Byte) { 97 <= c <= 122 || c in [32, 43, 44, 59, 61, 91, 93] }

  /** fat_needs_lfn. */
  predicate NeedsLfn(name: seq<Byte>) {
    if |name| > 12 then true
    else if name == [DOT] || name == [DOT, DOT] then false
    else if exists i :: 0 <= i < |name| && NotShort(name[i]) then true
    else if exists i, j :: 0 <= i < j < |name| && name[i] == DOT && name[j] == DOT then true
    else
      var base := |BeforeDot(name)|;
      if base == |name| then |name| > 8 else base > 8 || |name| - base - 1 > 3 || base == 0
  }

  /** The characters up to the first dot. */
  function BeforeDot(s: seq<Byte>): (r: seq<Byte>)
    ensures |r| <= |s|
  {
    if s == [] || s[0] == DOT then [] else [s[0]] + BeforeDot(s[1..])
  }

  function LongCount(name: seq<Byte>): (n: nat)
    requires |name| <= 255
    ensures n <= MAX_SEQ
  {
    if NeedsLfn(name) then PartCount(|name|) else 0
  }

  /** The entries of a new file. */
  function Written(name: seq<Byte>, short: Entry): (w: seq<Entry>)
    requires |name| <= 255
    ensures |w| == LongCount(name) + 1
  {
    LfnEntries(name, LongCount(name), CheckByte(short), LongCount(name)) + [short]
  }

  function CheckByte(short: Entry): Byte {
    ChecksumBound(short[..11]);
    Checksum(short[..11]) as Byte
  }

  lemma NeedsLfnName(name: seq<Byte>)
    requires NeedsLfn(name)
    ensures |name| >= 1
  {
  }

  lemma ChecksumBound(s: seq<Byte>)
    ensures Checksum(s) < 0x100
  {
  }

  /** A short entry that a directory search does not pass over. */
  predicate Visible(short: Entry) { !Deleted(short) && !Skipped(short) }

  lemma WrittenLong(name: seq<Byte>, short: Entry)
    requires |name| <= 255 && NeedsLfn(name)
    ensures var w := Written(name, short); var n := PartCount(|name|);
      w[n] == short && forall j :: 0 <= j < n ==> IsLfn(w[..n][j]) && !Deleted(w[..n][j])
  {
    hide NeedsLfn, Checksum;
    NeedsLfnName(name);
    var n := PartCount(|name|);
    WrittenIsRun(name, n, CheckByte(short), n);
  }

  /** Where a search for the new name must end up. */
  function NewlyFound(at: nat, name: seq<Byte>): Found {
    var n := PartCount(|name|);
    Found(at + n, true, at / 16, at % 16, n)
  }

  lemma NameReflexive(a: seq<Byte>)
    ensures NameEquals(a, a)
  {
  }

  /** From the first of the new slots on: a name of up to 247 characters is found there, a longer
      one is passed over. */
  lemma FindWritten(d: seq<Sector>, at: nat, hi: nat, p: Parser, name: seq<Byte>, short: Entry)
    requires |name| <= 255 && NeedsLfn(name) && NonZero(name) && Visible(short) && |p.name| == NAME_SIZE
    requires var w := Written(name, short); at + |w| <= hi <= 16 * |d| && Lies(d, at, w)
    ensures FindFrom(d, at, hi, p, name) ==
      if |name| <= 247 then Some(NewlyFound(at, name))
      else FindFrom(d, at + PartCount(|name|) + 1, hi, Fresh(), name)
  {
    hide Written, LfnEntries, Feed, FeedAll, FindFrom, Slot, VisitSlot, Restored, Lies, IsLfn, Deleted, PartCount,
         NeedsLfn;
    var w := Written(name, short);
    var n := |w| - 1;
    var q := FeedAll(p, w[..n], at);
    WrittenLong(name, short);
    WrittenParsed(p, name, short, at);
    LiesPrefix(d, at, w);
    FindFeeds(d, at, w[..n], hi, p, name);
    FindStep(d, at + n, hi, q, name);
    VisitNew(q, short, at, name);
  }

  lemma WrittenParsed(p: Parser, name: seq<Byte>, short: Entry, at: nat)
    requires |name| <= 255 && NeedsLfn(name) && NonZero(name) && Visible(short) && |p.name| == NAME_SIZE
    ensures var w := Written(name, short); var n := PartCount(|name|);
            Restored(Feed(FeedAll(p, w[..n], at), short, (at + n) / 16, (at + n) % 16), name, at)
  {
    hide NeedsLfn, Feed, FeedAll, Restored, LfnEntries, Checksum;
    NeedsLfnName(name);
    var n := PartCount(|name|);
    var long := LfnEntries(name, n, CheckByte(short), n);
    LongNameRoundTrip(p, name, short, at);
    assert Written(name, short)[..n] == long;
    FeedLast(p, long, short, at);
  }

  /** The short entry behind its long entries is a match unless the name was cut off. */
  lemma VisitNew(p: Parser, short: Entry, at: nat, name: seq<Byte>)
    requires |p.name| == NAME_SIZE && |name| <= 255 && Visible(short) && NonZero(name)
    requires Restored(Feed(p, short, (at + PartCount(|name|)) / 16, (at + PartCount(|name|)) % 16), name, at)
    ensures var v := VisitSlot(p, short, at + PartCount(|name|), name);
      if |name| <= 247 then v.Hit? && FoundAt(at + PartCount(|name|), v.p) == NewlyFound(at, name)
      else v == Next(Fresh())
  {
    var r := Feed(p, short, (at + PartCount(|name|)) / 16, (at + PartCount(|name|)) % 16);
    FormattedSize(short[..11]);
    hide Feed, CString, Formatted, Fresh;
    StringIs(r.name, if |name| <= 247 then name else name[..247]);
    NameReflexive(name);
  }

  /** A short name has at most twelve characters. */
  lemma FormattedSize(raw: seq<Byte>)
    requires |raw| == 11
    ensures |Formatted(raw)| <= 12
  {
    TrimmedSize(raw[..8]);
    TrimmedSize(raw[8..]);
    hide Trimmed;
  }

  lemma {:induction false} TrimmedSize(s: seq<Byte>)
    ensures |Trimmed(s)| <= |s|
  {
    if s != [] && s[0] != 32 { TrimmedSize(s[1..]); }
  }

  /** After the entries are written, a name of up to 247 characters is found there if and only if
      no end mark lies before them; a longer one is passed over. */
  lemma CreateThenFind(d0: seq<Sector>, d: seq<Sector>, lo: nat, hi: nat, at: nat, name: seq<Byte>, short: Entry)
    requires |name| <= 255 && NeedsLfn(name) && NonZero(name) && Visible(short)
    requires lo <= at && at + PartCount(|name|) + 1 <= hi <= 16 * |d0|
    requires FindFrom(d0, lo, hi, Fresh(), name) == None
    requires Placed(d0, d, at, Written(name, short))
    ensures FindFrom(d, lo, hi, Fresh(), name) ==
      if EndBetween(d0, lo, at) then None
      else if |name| <= 247 then Some(NewlyFound(at, name))
      else FindFrom(d, at + PartCount(|name|) + 1, hi, Fresh(), name)
  {
    var w := Written(name, short);
    assert forall j :: lo <= j < at ==> Slot(d, j) == Slot(d0, j);
    hide Written, Slot, NeedsLfn;
    var q := FindSkips(d0, d, lo, at, hi, Fresh(), name);
    FindWritten(d, at, hi, q, name, short);
  }

  /** A search finds a visible entry at or behind the slot it begins at. */
  lemma {:induction false} FoundBehind(d: seq<Sector>, k: nat, hi: nat, p: Parser, name: seq<Byte>)
    requires hi <= 16 * |d| && |p.name| == NAME_SIZE
    ensures var r := FindFrom(d, k, hi, p, name);
      r.Some? ==> k <= r.value.slot < hi && Visible(Slot(d, r.value.slot))
    decreases hi - k
  {
    if k < hi {
      hide VisitSlot, Slot, Visible;
      FindStep(d, k, hi, p, name);
      var v := VisitSlot(p, Slot(d, k), k, name);
      HitVisible(p, Slot(d, k), k, name);
      if v.Next? { FoundBehind(d, k + 1, hi, v.p, name); }
    }
  }

  lemma HitVisible(p: Parser, e: Entry, k: nat, name: seq<Byte>)
    requires |p.name| == NAME_SIZE
    ensures VisitSlot(p, e, k, name).Hit? ==> Visible(e)
  {
    hide Feed, Matches, Skipped;
  }

  /** The same entry, or two visible entries with the same short name. */
  ghost predicate Alike(e: Entry, e': Entry) { e' == e || (Visible(e) && Visible(e') && e'[..11] == e[..11]) }

  /** They mean the same to a search. */
  lemma SameVisit(p: Parser, e: Entry, e': Entry, k: nat, name: seq<Byte>)
    requires |p.name| == NAME_SIZE && Alike(e, e')
    ensures VisitSlot(p, e, k, name) == VisitSlot(p, e', k, name)
  {
    assert e[0] == e[..11][0] && e'[0] == e'[..11][0];
    hide Checksum, CString, Formatted, NameEquals;
  }

  /** A search depends on the slots it looks at, up to that likeness. */
  lemma {:induction false} FindSame(d: seq<Sector>, d': seq<Sector>, k: nat, hi: nat, p: Parser, name: seq<Byte>)
    requires |d'| == |d| && hi <= 16 * |d| && |p.name| == NAME_SIZE
    requires forall j :: k <= j < hi ==> Alike(Slot(d, j), Slot(d', j))
    ensures FindFrom(d', k, hi, p, name) == FindFrom(d, k, hi, p, name)
    decreases hi - k
  {
    if k < hi {
      hide VisitSlot, Slot, Alike, FindFrom;
      FindStep(d, k, hi, p, name);
      FindStep(d', k, hi, p, name);
      SameVisit(p, Slot(d, k), Slot(d', k), k, name);
      var v := VisitSlot(p, Slot(d, k), k, name);
      if v.Next? { FindSame(d, d', k + 1, hi, v.p, name); }
    } else {
      FindOver(d, k, hi, p, name);
      FindOver(d', k, hi, p, name);
    }
  }

  /** A search that finds something behind a run of free slots has met no end mark in it, and is
      in a fresh state there. */
  lemma {:induction false} RunSkipped(d: seq<Sector>, k: nat, n: nat, hi: nat, p: Parser, name: seq<Byte>)
    requires n >= 1 && k + n <= hi <= 16 * |d| && |p.name| == NAME_SIZE
    requires (forall j :: k <= j < k + n ==> Deleted(Slot(d, j))) && FindFrom(d, k, hi, p, name).Some?
    ensures FindFrom(d, k, hi, p, name) == FindFrom(d, k + n, hi, Fresh(), name)
    decreases n
  {
    hide Slot, FindFrom, Fresh, Feed;
    FindStep(d, k, hi, p, name);
    assert Deleted(Slot(d, k));
    if n > 1 { RunSkipped(d, k + 1, n - 1, hi, Fresh(), name); }
  }

  /** What a new file has in the directory: long entries and a visible one. */
  ghost predicate FileEntries(w: seq<Entry>) {
    |w| >= 1 && Visible(w[|w| - 1]) && AllLong(w[..|w| - 1])
  }

  ghost predicate AllLong(w: seq<Entry>) { forall j :: 0 <= j < |w| ==> IsLfn(w[j]) && !Deleted(w[j]) }

  lemma VisitVisible(p: Parser, e: Entry, k: nat, name: seq<Byte>)
    requires |p.name| == NAME_SIZE && Visible(e)
    ensures var v := VisitSlot(p, e, k, name); v.Hit? || v == Next(Fresh())
  {
    hide Feed, Matches, Fresh;
  }

  /** The entries of a new file in the way of a search: it ends there or goes on as before. */
  lemma PastInserted(d: seq<Sector>, d': seq<Sector>, at: nat, w: seq<Entry>, hi: nat, p: Parser, name: seq<Byte>)
    requires Placed(d, d', at, w) && FileEntries(w) && FreeRun(d, at, |w|) && at + |w| <= hi <= 16 * |d|
    requires |p.name| == NAME_SIZE && FindFrom(d, at, hi, p, name).Some?
    ensures var r := FindFrom(d', at, hi, p, name);
      r == FindFrom(d, at, hi, p, name) || (r.Some? && r.value.slot == at + |w| - 1)
  {
    hide Slot, FindFrom, Fresh, Feed, FeedAll, VisitSlot, Visible, IsLfn, Deleted;
    var n := |w| - 1;
    var q := FeedAll(p, w[..n], at);
    RunSkipped(d, at, n + 1, hi, p, name);
    assert Lies(d', at, w);
    LiesPrefix(d', at, w);
    FindFeeds(d', at, w[..n], hi, p, name);
    FindStep(d', at + n, hi, q, name);
    VisitVisible(q, w[n], at + n, name);
    FindSame(d, d', at + n + 1, hi, Fresh(), name);
  }

  /** After new entries are placed in free slots, a name that was found is found where it was,
      unless it now leads to the new file. */
  lemma {:induction false} FindKept(d: seq<Sector>, d': seq<Sector>, k: nat, at: nat, w: seq<Entry>, hi: nat,
                                    p: Parser, name: seq<Byte>)
    requires Placed(d, d', at, w) && FileEntries(w) && FreeRun(d, at, |w|) && k <= at && at + |w| <= hi <= 16 * |d|
    requires |p.name| == NAME_SIZE && FindFrom(d, k, hi, p, name).Some?
    ensures var r := FindFrom(d', k, hi, p, name);
      r == FindFrom(d, k, hi, p, name) || (r.Some? && r.value.slot == at + |w| - 1)
    decreases at - k
  {
    hide FindFrom, VisitSlot, FileEntries, FreeRun;
    if k == at {
      PastInserted(d, d', at, w, hi, p, name);
    } else {
      assert Slot(d', k) == Slot(d, k);
      hide Slot, Placed;
      FindStep(d, k, hi, p, name);
      FindStep(d', k, hi, p, name);
      var v := VisitSlot(p, Slot(d, k), k, name);
      if v.Next? { FindKept(d, d', k + 1, at, w, hi, v.p, name); }
    }
  }

  lemma WrittenEntries(name: seq<Byte>, short: Entry)
    requires |name| <= 255 && Visible(short)
    ensures FileEntries(Written(name, short))
  {
    hide NeedsLfn, Visible, IsLfn, Deleted, Checksum, LfnEntry, LfnEntries;
    if NeedsLfn(name) {
      WrittenLong(name, short);
    }
  }

  /** The slots determine the sectors. */
  lemma SectorOfSlots(d: seq<Sector>, d': seq<Sector>, s: nat)
    requires |d'| == |d| && s < |d| && forall j :: 16 * s <= j < 16 * s + 16 ==> Slot(d', j) == Slot(d, j)
    ensures d'[s] == d[s]
  {
    forall x | 0 <= x < 512 ensures d'[s][x] == d[s][x] {
      var e := x / 32;
      SlotIs(d, s, e);
      SlotIs(d', s, e);
      assert Slot(d', 16 * s + e) == Slot(d, 16 * s + e);
      assert d[s][x] == d[s][32 * e..32 * e + 32][x % 32] && d'[s][x] == d'[s][32 * e..32 * e + 32][x % 32];
    }
  }

  // ----- The search for free slots -----

  ghost predicate FreeRun(d: seq<Sector>, at: nat, n: nat) {
    at + n <= 16 * |d| && forall k :: at <= k < at + n ==> Deleted(Slot(d, k))
  }

  /** The lowest run of n free slots in [lo, hi), if there is one. */
  ghost predicate LowestRun(d: seq<Sector>, lo: nat, hi: nat, n: nat, r: Option<nat>) {
    && (r.Some? ==> lo <= r.value && r.value + n <= hi && FreeRun(d, r.value, n))
    && (forall s: nat :: lo <= s && s + n <= (if r.Some? then r.value + n - 1 else hi) ==> !FreeRun(d, s, n))
  }

  /** A directory in which nothing follows the first end mark. */
  ghost predicate Ended(d: seq<Sector>, lo: nat, hi: nat)
    requires hi <= 16 * |d|
  {
    forall j, k :: lo <= j < k < hi && Slot(d, j)[0] == 0 ==> Slot(d, k)[0] == 0
  }

  /** There the chosen run never lies behind the end mark, so a created name is always found. */
  lemma RunBeforeEnd(d: seq<Sector>, lo: nat, hi: nat, n: nat, at: nat)
    requires n >= 1 && hi <= 16 * |d| && Ended(d, lo, hi) && LowestRun(d, lo, hi, n, Some(at))
    ensures !EndBetween(d, lo, at)
  {
    if EndBetween(d, lo, at) {
      var z :| lo <= z < at && Slot(d, z)[0] == 0;
      assert FreeRun(d, z, n) by {
        forall k | z <= k < z + n ensures Deleted(Slot(d, k)) { assert Slot(d, k)[0] == 0; }
      }
      assert false;
    }
  }

  /** An end mark, a used slot, then deleted slots. */
  function LateSector(): Sector { [0] + Zeros(31) + [65] + Zeros(31) + seq(448, _ => 0xE5 as Byte) }

  /** Otherwise it can: here the run for a name of one letter lies behind the end mark, and once
      the entries are written there, a search for the name finds nothing. */
  lemma BehindEndMark(d: seq<Sector>, short: Entry)
    requires Visible(short) && Placed([LateSector()], d, 2, Written([97], short))
    ensures LowestRun([LateSector()], 0, 16, 2, Some(2)) && LongCount([97]) == 1
    ensures FindFrom([LateSector()], 0, 16, Fresh(), [97]) == None && FindFrom(d, 0, 16, Fresh(), [97]) == None
  {
    var d0 := [LateSector()];
    LateSlots();
    hide LateSector, Slot, Placed, Written, Fresh;
    var name: seq<Byte> := [97];
    assert NotShort(name[0]);
    assert !Deleted(Slot(d0, 1));
    assert FreeRun(d0, 2, 2);
    forall s: nat | s < 2 ensures !FreeRun(d0, s, 2) {
      assert s <= 1 < s + 2;
    }
    assert EndBetween(d0, 0, 2);
    CreateThenFind(d0, d, 0, 16, 2, name, short);
  }

  lemma LateSlots()
    ensures Slot([LateSector()], 0)[0] == 0 && Slot([LateSector()], 1)[0] == 65
    ensures Slot([LateSector()], 2)[0] == 0xE5 && Slot([LateSector()], 3)[0] == 0xE5
  {
  }

  // ----- The operations on the device -----

  /** The slots that are looked at: those of at most 1024 sectors. */
  function RootEnd(start: nat, sectors: nat): nat { 16 * (start + if sectors < 1024 then sectors else 1024) }

  lemma FindOver(d: seq<Sector>, k: nat, hi: nat, p: Parser, name: seq<Byte>)
    requires k >= hi && hi <= 16 * |d| && |p.name| == NAME_SIZE
    ensures FindFrom(d, k, hi, p, name) == None
  {
  }

  datatype Step = Stop | Match(f: Found) | Continue

  ghost function StepOf(k: nat, v: Visit): Step {
    match v
    case End => Stop
    case Hit(q) => Match(FoundAt(k, q))
    case Next(_) => Continue
  }

  lemma SlotIs(d: seq<Sector>, s: nat, e: nat)
    requires s < |d| && e < 16
    ensures Slot(d, 16 * s + e) == d[s][32 * e..32 * e + 32]
  {
    DivMod(16 * s + e, 16, s, e);
  }

  /** One slot of the search: the parser is left as the search goes on with it. */
  method VisitEntry(parser: LfnParser, disk: array<Sector>, sec: nat, e: nat, name: seq<Byte>) returns (r: Step)
    requires parser.Valid() && sec < disk.Length && e < 16
    modifies parser, parser.name
    ensures var v := VisitSlot(old(parser.State()), Slot(disk[..], 16 * sec + e), 16 * sec + e, name);
      r == StepOf(16 * sec + e, v) && (v.Next? ==> parser.State() == v.p)
  {
    SlotIs(disk[..], sec, e);
    DivMod(16 * sec + e, 16, sec, e);
    hide Slot, Feed, Fresh, CString, Formatted, NameEquals;
    var entry: Entry := disk[sec][32 * e..32 * e + 32];
    if entry[0] == 0 {
      return Stop;
    }
    if entry[0] == 0xE5 {
      parser.Reset();
      return Continue;
    }
    parser.FeedEntry(entry, sec, e);
    if Skipped(entry) {
      return Continue;
    }
    var fname := Formatted(entry[..11]);
    if || (parser.hasLfn && parser.isValid && NameEquals(CString(parser.name[..]), name))
       || NameEquals(CString(fname), name)
    {
      var long := parser.hasLfn && parser.isValid;
      return Match(Found(16 * sec + e, long, parser.startSec, parser.startSlot, parser.total));
    }
    parser.Reset();
    r := Continue;
  }

  /** fat_dir_find_entry on the fixed root directory. */
  method FindEntry(disk: array<Sector>, start: nat, sectors: nat, name: seq<Byte>) returns (r: Option<Found>)
    requires start + sectors <= disk.Length
    ensures r == FindFrom(disk[..], 16 * start, RootEnd(start, sectors), Fresh(), name)
  {
    hide FindFrom, Fresh, Slot, VisitSlot;
    var parser := new LfnParser();
    var max := if sectors < 1024 then sectors else 1024;
    var s := 0;
    while s < max
      invariant 0 <= s <= max
      invariant fresh(parser) && parser.Valid() && fresh(parser.name)
      invariant FindFrom(disk[..], 16 * start, RootEnd(start, sectors), Fresh(), name)
             == FindFrom(disk[..], 16 * (start + s), RootEnd(start, sectors), parser.State(), name)
    {
      var e := 0;
      while e < 16
        invariant 0 <= e <= 16
        invariant fresh(parser) && parser.Valid() && fresh(parser.name)
        invariant FindFrom(disk[..], 16 * start, RootEnd(start, sectors), Fresh(), name)
               == FindFrom(disk[..], 16 * (start + s) + e, RootEnd(start, sectors), parser.State(), name)
      {
        var k := 16 * (start + s) + e;
        FindStep(disk[..], k, RootEnd(start, sectors), parser.State(), name);
        var v := VisitEntry(parser, disk, start + s, e, name);
        match v {
          case Stop => return None;
          case Match(f) => return Some(f);
          case Continue =>
        }
        e := e + 1;
      }
      s := s + 1;
    }
    FindOver(disk[..], 16 * (start + s), RootEnd(start, sectors), parser.State(), name);
    r := None;
  }

  /** How far the search for a run has come: the count slots before k are free, and a run that
      is not among them starts at k or later. */
  ghost predicate Counting(d: seq<Sector>, lo: nat, k: nat, n: nat, count: nat) {
    && lo + count <= k <= 16 * |d| && count < n
    && FreeRun(d, k - count, count)
    && (forall s: nat :: lo <= s < k - count ==> !FreeRun(d, s, n))
  }

  lemma CountTaken(d: seq<Sector>, lo: nat, k: nat, n: nat, count: nat)
    requires Counting(d, lo, k, n, count) && k < 16 * |d| && !Deleted(Slot(d, k))
    ensures Counting(d, lo, k + 1, n, 0)
  {
    hide Slot, Deleted;
    forall s: nat | lo <= s < k + 1 ensures !FreeRun(d, s, n) {
      if s >= k - count { assert s <= k < s + n; }
    }
  }

  lemma CountFree(d: seq<Sector>, lo: nat, k: nat, hi: nat, n: nat, count: nat)
    requires Counting(d, lo, k, n, count) && k < hi <= 16 * |d| && Deleted(Slot(d, k))
    ensures if count + 1 < n then Counting(d, lo, k + 1, n, count + 1) else LowestRun(d, lo, hi, n, Some(k - count))
  {
    hide Slot, Deleted;
  }

  /** The scan for free slots of fat_dir_find_or_alloc_lfn_slots; a run may cross sectors. */
  method FindFreeSlots(disk: array<Sector>, start: nat, sectors: nat, n: nat) returns (r: Option<nat>)
    requires start + sectors <= disk.Length && n >= 1
    ensures LowestRun(disk[..], 16 * start, RootEnd(start, sectors), n, r)
  {
    hide Slot, Deleted, LowestRun;
    var max := if sectors < 1024 then sectors else 1024;
    var runStart, runCount := 0, 0;
    var s := 0;
    while s < max
      invariant 0 <= s <= max
      invariant Counting(disk[..], 16 * start, 16 * (start + s), n, runCount)
      invariant runCount > 0 ==> runStart == 16 * (start + s) - runCount
    {
      var e := 0;
      while e < 16
        invariant 0 <= e <= 16
        invariant Counting(disk[..], 16 * start, 16 * (start + s) + e, n, runCount)
        invariant runCount > 0 ==> runStart == 16 * (start + s) + e - runCount
      {
        SlotIs(disk[..], start + s, e);
        var entry: Entry := disk[start + s][32 * e..32 * e + 32];
        if Deleted(entry) {
          CountFree(disk[..], 16 * start, 16 * (start + s) + e, RootEnd(start, sectors), n, runCount);
          if runCount == 0 {
            runStart := 16 * (start + s) + e;
          }
          runCount := runCount + 1;
          if runCount >= n {
            return Some(runStart);
          }
        } else {
          CountTaken(disk[..], 16 * start, 16 * (start + s) + e, n, runCount);
          runCount := 0;
        }
        e := e + 1;
      }
      s := s + 1;
    }
    CountEnd(disk[..], 16 * start, RootEnd(start, sectors), n, runCount);
    r := None;
  }

  lemma CountEnd(d: seq<Sector>, lo: nat, k: nat, n: nat, count: nat)
    requires Counting(d, lo, k, n, count)
    ensures LowestRun(d, lo, k, n, None)
  {
    hide Slot, Deleted;
  }

  // ----- fat_write_lfn_and_short_entry -----

  /** encode_lfn_chars into a buffer. */
  method EncodeChars(name: seq<Byte>, x: nat, buf: array<Byte>, off: nat, count: nat)
    requires off + 2 * count <= buf.Length
    modifies buf
    ensures buf[off..off + 2 * count] == Encoded(name, x, count)
    ensures forall j :: 0 <= j < buf.Length && !(off <= j < off + 2 * count) ==> buf[j] == old(buf[j])
  {
    var i := 0;
    while i < count
      invariant 0 <= i <= count
      invariant forall j :: 0 <= j < 2 * i ==> buf[off + j] == Encoded(name, x, count)[j]
      invariant forall j :: 0 <= j < buf.Length && !(off <= j < off + 2 * i) ==> buf[j] == old(buf[j])
    {
      var u := Unit(name, x + i);
      buf[off + 2 * i] := (u % 0x100) as Byte;
      buf[off + 2 * i + 1] := (u / 0x100) as Byte;
      i := i + 1;
    }
  }

  /** A slot made up of the parts of a long entry. */
  lemma Assembled(b: seq<Byte>, o: nat, name: seq<Byte>, n: nat, q: nat, chk: Byte)
    requires o + 32 <= |b| && 1 <= q <= n <= MAX_SEQ
    requires b[o] == (if q == n then 0x40 + q else q) as Byte
    requires b[o + 1..o + 11] == Encoded(name, (q - 1) * 13, 5)
    requires b[o + 11] == LFN_ATTR && b[o + 12] == 0 && b[o + 13] == chk
    requires b[o + 14..o + 26] == Encoded(name, (q - 1) * 13 + 5, 6)
    requires b[o + 26] == 0 && b[o + 27] == 0
    requires b[o + 28..o + 32] == Encoded(name, (q - 1) * 13 + 11, 2)
    ensures b[o..o + 32] == LfnEntry(name, n, q, chk)
  {
    hide Encoded;
    assert b[o..o + 32] == [b[o]] + b[o + 1..o + 11] + [b[o + 11], b[o + 12], b[o + 13]] + b[o + 14..o + 26]
                           + [b[o + 26], b[o + 27]] + b[o + 28..o + 32];
  }

  lemma PatchIs(b0: seq<Byte>, b: seq<Byte>, o: nat, e: Entry)
    requires |b0| == |b| == SECTOR && o + 32 <= SECTOR && b[o..o + 32] == e
    requires forall j :: 0 <= j < SECTOR && !(o <= j < o + 32) ==> b[j] == b0[j]
    ensures b == PatchBytes(b0, o, e)
  {
    assert b == b[..o] + b[o..o + 32] + b[o + 32..];
    assert b[..o] == b0[..o] && b[o + 32..] == b0[o + 32..];
  }

  /** memset of one entry. */
  method ClearEntry(buf: array<Byte>, o: nat)
    requires o + 32 <= buf.Length
    modifies buf
    ensures forall j :: 0 <= j < buf.Length ==> buf[j] == if o <= j < o + 32 then 0 else old(buf[j])
  {
    var i := 0;
    while i < 32
      invariant 0 <= i <= 32
      invariant forall j :: 0 <= j < buf.Length ==> buf[j] == if o <= j < o + i then 0 else old(buf[j])
    {
      buf[o + i] := 0;
      i := i + 1;
    }
  }

  /** One long entry in its slot of the sector buffer. */
  method PutLongEntry(buf: array<Byte>, slot: nat, name: seq<Byte>, n: nat, q: nat, chk: Byte)
    requires buf.Length == SECTOR && slot < 16 && 1 <= q <= n <= MAX_SEQ
    modifies buf
    ensures buf[..] == PatchBytes(old(buf[..]), 32 * slot, LfnEntry(name, n, q, chk))
  {
    hide Encoded, LfnEntry;
    var o := 32 * slot;
    ghost var b0 := buf[..];
    ClearEntry(buf, o);
    buf[o] := (if q == n then 0x40 + q else q) as Byte;
    buf[o + 11] := LFN_ATTR;
    buf[o + 12] := 0;
    buf[o + 13] := chk;
    buf[o + 26], buf[o + 27] := 0, 0;
    EncodeChars(name, (q - 1) * 13, buf, o + 1, 5);
    ghost var b1 := buf[..];
    EncodeChars(name, (q - 1) * 13 + 5, buf, o + 14, 6);
    ghost var b2 := buf[..];
    EncodeChars(name, (q - 1) * 13 + 11, buf, o + 28, 2);
    assert buf[o + 1..o + 11] == b1[o + 1..o + 11];
    assert buf[o + 14..o + 26] == b2[o + 14..o + 26];
    Assembled(buf[..], o, name, n, q, chk);
    PatchIs(b0, buf[..], o, LfnEntry(name, n, q, chk));
  }

  method PutShortEntry(buf: array<Byte>, slot: nat, short: Entry)
    requires buf.Length == SECTOR && slot < 16
    modifies buf
    ensures buf[..] == PatchBytes(old(buf[..]), 32 * slot, short)
  {
    var o := 32 * slot;
    ghost var b0 := buf[..];
    var i := 0;
    while i < 32
      invariant 0 <= i <= 32
      invariant buf[o..o + i] == short[..i]
      invariant forall j :: 0 <= j < SECTOR && !(o <= j < o + 32) ==> buf[j] == b0[j]
    {
      buf[o + i] := short[i];
      assert buf[o..o + i + 1] == buf[o..o + i] + [short[i]];
      i := i + 1;
    }
    PatchIs(b0, buf[..], o, short);
  }

  method LoadSector(disk: array<Sector>, sec: nat) returns (buf: array<Byte>)
    requires sec < disk.Length
    ensures fresh(buf) && buf.Length == SECTOR && buf[..] == disk[sec]
  {
    var s := disk[sec];
    buf := new Byte[SECTOR](i requires 0 <= i < SECTOR => s[i]);
  }

  /** The device as it will be once the buffer is written back. */
  ghost function Pending(disk: array<Sector>, sec: nat, buf: array<Byte>): (d: seq<Sector>)
    reads disk, buf
    requires sec < disk.Length && buf.Length == SECTOR
    ensures |d| == disk.Length
  {
    disk[..][sec := buf[..]]
  }

  lemma PendingPut(d: seq<Sector>, sec: nat, b: Sector, slot: nat, e: Entry)
    requires sec < |d| && slot < 16
    ensures d[sec := b][sec := PatchBytes(b, 32 * slot, e)] == d[sec := PatchBytes(b, 32 * slot, e)]
    ensures PutSlot(d[sec := b], 16 * sec + slot, e) == d[sec := PatchBytes(b, 32 * slot, e)]
  {
    hide PatchBytes;
    DivMod(16 * sec + slot, 16, sec, slot);
  }

  /** The long entries and the short entry of a new file, from slot startSlot of sector
      startSec on; sectors are written back as they fill up. */
  method WriteEntries(disk: array<Sector>, startSec: nat, startSlot: nat, name: seq<Byte>, short: Entry)
    requires |name| <= 255 && startSlot < 16 && 16 * startSec + startSlot + LongCount(name) + 1 <= 16 * disk.Length
    modifies disk
    ensures Placed(old(disk[..]), disk[..], 16 * startSec + startSlot, Written(name, short))
  {
    hide Placed, Slot, PatchBytes, Encoded, LfnEntry, PutSlot, NeedsLfn, Checksum, Written, LfnEntries;
    ghost var d0 := disk[..];
    ghost var at := 16 * startSec + startSlot;
    var n := LongCount(name);
    var chk := CheckByte(short);
    var sec, slot := startSec, startSlot;
    var buf := LoadSector(disk, sec);
    PlacedNone(d0, at, name, n, chk);
    assert Pending(disk, sec, buf) == d0;
    var q := n;
    while q >= 1
      invariant 0 <= q <= n && 0 <= slot < 16 && 16 * sec + slot == at + n - q && sec < disk.Length
      invariant fresh(buf) && buf.Length == SECTOR
      invariant Placed(d0, Pending(disk, sec, buf), at, LfnEntries(name, n, chk, n - q))
      decreases q
    {
      LongPlaced(d0, disk[..], sec, buf[..], slot, at, name, n, q, chk);
      PutLongEntry(buf, slot, name, n, q, chk);
      q := q - 1;
      slot := slot + 1;
      if slot >= 16 {
        ghost var d := Pending(disk, sec, buf);
        disk[sec] := buf[..];
        sec := sec + 1;
        slot := 0;
        buf := LoadSector(disk, sec);
        assert Pending(disk, sec, buf) == d;
      }
    }
    ShortPlaced(d0, disk[..], sec, buf[..], slot, at, name, short);
    PutShortEntry(buf, slot, short);
    ghost var d := Pending(disk, sec, buf);
    disk[sec] := buf[..];
    assert disk[..] == d;
  }

  lemma PlacedNone(d: seq<Sector>, at: nat, name: seq<Byte>, n: nat, chk: Byte)
    requires at <= 16 * |d| && n <= MAX_SEQ
    ensures Placed(d, d, at, LfnEntries(name, n, chk, 0))
  {
    hide Slot;
  }

  lemma LongPlaced(d0: seq<Sector>, d: seq<Sector>, sec: nat, b: Sector, slot: nat, at: nat, name: seq<Byte>, n: nat,
                   q: nat, chk: Byte)
    requires 1 <= q <= n <= MAX_SEQ && sec < |d| && slot < 16 && 16 * sec + slot == at + n - q
    requires Placed(d0, d[sec := b], at, LfnEntries(name, n, chk, n - q))
    ensures Placed(d0, d[sec := PatchBytes(b, 32 * slot, LfnEntry(name, n, q, chk))], at,
                   LfnEntries(name, n, chk, n - (q - 1)))
  {
    EntriesGrow(name, n, chk, n - q + 1);
    hide Placed, PatchBytes, LfnEntry, LfnEntries;
    var e := LfnEntry(name, n, q, chk);
    PendingPut(d, sec, b, slot, e);
    PlaceMore(d0, d[sec := b], at, LfnEntries(name, n, chk, n - q), e);
  }

  lemma ShortPlaced(d0: seq<Sector>, d: seq<Sector>, sec: nat, b: Sector, slot: nat,
                    at: nat, name: seq<Byte>, short: Entry)
    requires |name| <= 255 && sec < |d| && slot < 16 && 16 * sec + slot == at + LongCount(name)
    requires Placed(d0, d[sec := b], at, LfnEntries(name, LongCount(name), CheckByte(short), LongCount(name)))
    ensures Placed(d0, d[sec := PatchBytes(b, 32 * slot, short)], at, Written(name, short))
  {
    hide Placed, PatchBytes, LfnEntry, LfnEntries, NeedsLfn;
    PendingPut(d, sec, b, slot, short);
    PlaceMore(d0, d[sec := b], at, LfnEntries(name, LongCount(name), CheckByte(short), LongCount(name)), short);
  }

  // ----- Create, then find -----

  /** The directory part of fat_write_file for a name that is not there yet: choose a run and
      write the entries; None if the name exists or the directory is full. */
  method CreateEntry(disk: array<Sector>, start: nat, sectors: nat, name: seq<Byte>, short: Entry)
    returns (r: Option<nat>)
    requires start + sectors <= disk.Length && |name| <= 255
    modifies disk
    ensures var lo, hi := 16 * start, RootEnd(start, sectors);
      && (r.None? ==>
        && disk[..] == old(disk[..])
        && (FindFrom(disk[..], lo, hi, Fresh(), name).Some? || LowestRun(disk[..], lo, hi, LongCount(name) + 1, None)))
      && (r.Some? ==>
        && FindFrom(old(disk[..]), lo, hi, Fresh(), name) == None
        && LowestRun(old(disk[..]), lo, hi, LongCount(name) + 1, r)
        && r.value + LongCount(name) + 1 <= hi
        && Placed(old(disk[..]), disk[..], r.value, Written(name, short)))
  {
    hide FindFrom, Fresh, Slot, Placed, Written, NeedsLfn, FreeRun;
    r := None;
    var f := FindEntry(disk, start, sectors, name);
    if f.None? {
      r := FindFreeSlots(disk, start, sectors, LongCount(name) + 1);
      if r.Some? {
        WriteEntries(disk, r.value / 16, r.value % 16, name, short);
      }
    }
  }

  /** A long name that was created is found again, in a directory in which nothing follows the
      end mark, if and only if it has at most 247 characters. */
  method CreateAndFind(disk: array<Sector>, start: nat, sectors: nat, name: seq<Byte>, short: Entry)
    returns (r: Option<nat>, f: Option<Found>)
    requires start + sectors <= disk.Length && |name| <= 255 && NeedsLfn(name) && NonZero(name) && Visible(short)
    requires Ended(disk[..], 16 * start, RootEnd(start, sectors))
    modifies disk
    ensures r.Some? ==> (f == Some(NewlyFound(r.value, name)) <==> |name| <= 247)
    ensures r.Some? && |name| > 247 && f.Some? ==> f.value.slot > r.value + PartCount(|name|)
  {
    hide FindFrom, Fresh, Slot, Placed, Written, NeedsLfn, FreeRun, Ended, EndBetween;
    ghost var d0 := disk[..];
    f := None;
    r := CreateEntry(disk, start, sectors, name, short);
    if r.Some? {
      ghost var hi := RootEnd(start, sectors);
      RunBeforeEnd(d0, 16 * start, hi, LongCount(name) + 1, r.value);
      CreateThenFind(d0, disk[..], 16 * start, hi, r.value, name, short);
      FoundBehind(disk[..], r.value + PartCount(|name|) + 1, hi, Fresh(), name);
      f := FindEntry(disk, start, sectors, name);
    }
  }

  // ----- Short names -----

  predicate Slash(c: Byte) { c == 47 || c == 92 }

  /** The characters up to a slash, or a dot if `dot` is set. */
  function UpTo(s: seq<Byte>, dot: bool): (r: seq<Byte>)
    ensures |r| <= |s| && s[..|r|] == r
    ensures |r| < |s| ==> Slash(s[|r|]) || (dot && s[|r|] == DOT)
    ensures forall i :: 0 <= i < |r| ==> !Slash(r[i]) && !(dot && r[i] == DOT)
  {
    if s == [] || Slash(s[0]) || (dot && s[0] == DOT) then [] else [s[0]] + UpTo(s[1..], dot)
  }

  /** n upper-case characters, blank-filled. */
  function Field(s: seq<Byte>, n: nat): (r: seq<Byte>)
    ensures |r| == n
  {
    seq(n, i requires 0 <= i < n => if i < |s| then Upper(s[i]) else 32)
  }

  /** to_fat_83_name. */
  function ShortForm(name: seq<Byte>): (r: seq<Byte>)
    ensures |r| == 11
  {
    if name == [DOT] || name == [DOT, DOT] then Field(name, 11)
    else
      var base := UpTo(name, true);
      var rest := name[|base|..];
      var ext := if rest != [] && rest[0] == DOT then UpTo(rest[1..], false) else [];
      Field(base, 8) + Field(ext, 3)
  }

  lemma {:induction false} TrimmedField(s: seq<Byte>, n: nat, f: seq<Byte>)
    requires |s| <= n && |f| == n && forall i :: 0 <= i < |s| ==> s[i] != 32
    requires forall i :: 0 <= i < n ==> f[i] == if i < |s| then s[i] else 32
    ensures Trimmed(f) == s
    decreases n
  {
    if s != [] {
      assert f[0] == s[0];
      TrimmedField(s[1..], n - 1, f[1..]);
    }
  }

  ghost predicate NoSlash(s: seq<Byte>) { forall i :: 0 <= i < |s| ==> !Slash(s[i]) && s[i] != 0 }

  lemma {:induction false} BeforeDotIs(s: seq<Byte>)
    requires NoSlash(s)
    ensures BeforeDot(s) == UpTo(s, true)
  {
    if s != [] && s[0] != DOT { BeforeDotIs(s[1..]); }
  }

  ghost predicate UpperCase(s: seq<Byte>) { forall i :: 0 <= i < |s| ==> Upper(s[i]) == s[i] != 32 }

  lemma FieldTrimmed(s: seq<Byte>, n: nat)
    requires UpperCase(s) && |s| <= n
    ensures Trimmed(Field(s, n)) == s
  {
    TrimmedField(s, n, Field(s, n));
  }

  lemma FormattedFields(base: seq<Byte>, ext: seq<Byte>)
    requires UpperCase(base) && UpperCase(ext) && |base| <= 8 && |ext| <= 3 && (base == [] || base[0] != DOT)
    ensures Formatted(Field(base, 8) + Field(ext, 3)) == base + if ext != [] then [DOT] + ext else []
  {
    var raw := Field(base, 8) + Field(ext, 3);
    FieldTrimmed(base, 8);
    FieldTrimmed(ext, 3);
    assert raw[..8] == Field(base, 8) && raw[8..] == Field(ext, 3);
    assert raw[0] == Field(base, 8)[0] != DOT;
    assert raw[8] == Field(ext, 3)[0];
  }

  lemma {:induction false} UpToAll(s: seq<Byte>)
    requires NoSlash(s)
    ensures UpTo(s, false) == s
  {
    if s != [] { UpToAll(s[1..]); }
  }

  /** A name that needs no long entry is upper-case, with at most one dot and short parts. */
  lemma ShortParts(name: seq<Byte>)
    requires !NeedsLfn(name) && NoSlash(name) && name != [DOT] && name != [DOT, DOT]
    ensures var base := UpTo(name, true);
      && UpperCase(name) && |base| <= 8 && (|base| < |name| ==> |name| - |base| - 1 <= 3 && base != [])
      && (forall i :: |base| < i < |name| ==> name[i] != DOT)
  {
    BeforeDotIs(name);
    var base := UpTo(name, true);
    hide BeforeDot, UpTo;
    assert forall i :: 0 <= i < |name| ==> !NotShort(name[i]);
    if |base| < |name| {
      assert name[|base|] == DOT;
    }
  }

  lemma DotNames(name: seq<Byte>)
    requires name == [DOT] || name == [DOT, DOT]
    ensures Formatted(ShortForm(name)) == name
  {
    hide Trimmed, UpTo;
  }

  lemma PlainShort(name: seq<Byte>)
    requires UpperCase(name) && |name| <= 8 && UpTo(name, true) == name && (name == [] || name[0] != DOT)
    ensures Formatted(ShortForm(name)) == name
  {
    hide Formatted, Trimmed, UpTo, Upper;
    assert name[|name|..] == [];
    FormattedFields(name, []);
  }

  lemma DottedShort(name: seq<Byte>, base: seq<Byte>, ext: seq<Byte>)
    requires UpTo(name, true) == base && name == base + [DOT] + ext && base != [] && base[0] != DOT
    requires UpperCase(base) && UpperCase(ext) && |base| <= 8 && |ext| <= 3 && NoSlash(ext)
    ensures Formatted(ShortForm(name)) == base + if ext != [] then [DOT] + ext else []
  {
    hide Formatted, Trimmed, UpTo, Upper, UpperCase;
    assert name[|base|..] == [DOT] + ext && ([DOT] + ext)[1..] == ext;
    UpToAll(ext);
    FormattedFields(base, ext);
  }

  /** A dot at the end that is not all of the name. */
  predicate EndsInDot(name: seq<Byte>) { |name| > 0 && name[|name| - 1] == DOT && name != [DOT] && name != [DOT, DOT] }

  /** Nothing of a name without long entry is lost but a dot at its end. */
  lemma ShortNameRoundTrip(name: seq<Byte>)
    requires !NeedsLfn(name) && NoSlash(name)
    ensures Formatted(ShortForm(name)) == if EndsInDot(name) then name[..|name| - 1] else name
  {
    hide NeedsLfn, Formatted, ShortForm, UpTo, Upper;
    if name == [DOT] || name == [DOT, DOT] {
      DotNames(name);
    } else {
      ShortParts(name);
      var base := UpTo(name, true);
      assert name[..|base|] == base;
      if |base| == |name| {
        PlainShort(name);
      } else {
        var ext := name[|base| + 1..];
        assert name == base + [DOT] + ext by { assert name[|base|] == DOT; }
        DottedShort(name, base, ext);
        assert ext == [] ==> name[..|name| - 1] == base;
        assert ext != [] ==> name == base + ([DOT] + ext) && name[|name| - 1] == ext[|ext| - 1];
      }
    }
  }

  lemma CStringAll(s: seq<Byte>)
    requires 0 !in s
    ensures CString(s) == s
  {
  }

  /** The same for a name that is kept as a short name alone: it is found unless it ends in a dot;
      then only a stray long name in front of the entry can still make it match. */
  lemma CreateThenFindShort(d0: seq<Sector>, d: seq<Sector>, lo: nat, hi: nat, at: nat, name: seq<Byte>, short: Entry)
    requires |name| <= 255 && !NeedsLfn(name) && NoSlash(name) && Visible(short) && short[..11] == ShortForm(name)
    requires lo <= at < hi <= 16 * |d0|
    requires FindFrom(d0, lo, hi, Fresh(), name) == None
    requires Placed(d0, d, at, Written(name, short))
    ensures var r := FindFrom(d, lo, hi, Fresh(), name);
            if EndBetween(d0, lo, at) then r == None
            else if !EndsInDot(name) then r.Some? && r.value.slot == at
            else r.Some? && r.value.slot == at ==> r.value.hasLfn
  {
    hide NeedsLfn, Written, Slot, FindFrom, ShortForm, VisitSlot, EndsInDot, Placed, Fresh, EndBetween, NoSlash,
         Visible;
    ShortAlone(d0, d, at, name, short);
    var q := FindSkips(d0, d, lo, at, hi, Fresh(), name);
    FindStep(d, at, hi, q, name);
    VisitShort(q, short, at, name);
    FindStepBehind(d, at, hi, q, name);
  }

  lemma ShortAlone(d0: seq<Sector>, d: seq<Sector>, at: nat, name: seq<Byte>, short: Entry)
    requires |name| <= 255 && !NeedsLfn(name) && Placed(d0, d, at, Written(name, short))
    ensures |d| == |d0| && at < 16 * |d| && Slot(d, at) == short
    ensures forall j :: 0 <= j < at ==> Slot(d, j) == Slot(d0, j)
  {
    hide NeedsLfn, Slot, LfnEntry;
    assert Written(name, short)[0] == short;
  }

  /** A search that does not stop at a slot finds something behind it or nothing. */
  lemma FindStepBehind(d: seq<Sector>, k: nat, hi: nat, p: Parser, name: seq<Byte>)
    requires k < hi <= 16 * |d| && |p.name| == NAME_SIZE
    ensures var r := FindFrom(d, k, hi, p, name);
      r.Some? && r.value.slot == k ==> VisitSlot(p, Slot(d, k), k, name).Hit?
  {
    hide VisitSlot, Slot, FindFrom;
    FindStep(d, k, hi, p, name);
    var v := VisitSlot(p, Slot(d, k), k, name);
    if v.Next? { FoundBehind(d, k + 1, hi, v.p, name); }
  }

  lemma VisitShort(p: Parser, short: Entry, at: nat, name: seq<Byte>)
    requires |p.name| == NAME_SIZE && Visible(short)
    requires !NeedsLfn(name) && NoSlash(name) && short[..11] == ShortForm(name)
    ensures var v := VisitSlot(p, short, at, name);
      !v.End? && (if EndsInDot(name) then v.Hit? ==> FoundAt(at, v.p).hasLfn else v.Hit?)
  {
    ShortNameRoundTrip(name);
    hide NeedsLfn, Formatted, ShortForm, EndsInDot, Feed, CString;
    CStringAll(Formatted(short[..11]));
    NameReflexive(name);
  }
}
