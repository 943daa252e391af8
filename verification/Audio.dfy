/**
  Integer arithmetic of the audio driver: the square root behind the level meter and the
  resampler that turns any sample rate into 48 kHz by linear interpolation.
 */
module Audio {
  import opened Prelude

  const TWO32 := 0x1_0000_0000
  const TWO64 := 0x1_0000_0000_0000_0000

  // ----- isqrt_u64 -----

  ghost function Pow2(k: nat): (p: nat)
    ensures p >= 1
  {
    if k == 0 then 1 else 2 * Pow2(k - 1)
  }

  /** R is the root of n0 as far as its multiples of p go; the loop keeps R * p and n0 - R * R. */
  ghost predicate Partial(n0: nat, n: nat, root: nat, bit: nat, r: nat, p: nat, k: nat) {
    && p == Pow2(k) && r + p <= TWO32
    && bit == p * p / 4
    && root == r * p
    && n == n0 - r * r
    && n0 < (r + p) * (r + p)
  }

  /** (r + q)^2, for p = 2q. */
  lemma Square(r: nat, q: nat)
    ensures (r + q) * (r + q) == r * r + (r * (2 * q) + q * q)
    ensures (2 * q) * (2 * q) / 4 == q * q && r * (2 * q) / 2 == r * q
    ensures (r + q) * q == r * q + q * q
  {
    assert (2 * q) * (2 * q) == 4 * (q * q);
    assert r * (2 * q) == 2 * (r * q);
  }

  lemma NoOverflow(r: nat, q: nat)
    requires r + 2 * q <= TWO32
    ensures r * (2 * q) + q * q < TWO64
  {
    Square(r, q);
    assert (r + q) * (r + q) <= (TWO32 - q) * (TWO32 - q) by { MulMono(r + q, TWO32 - q); }
    if q == 0 {
      assert r * (2 * q) + q * q == 0;
    } else {
      MulMono(TWO32 - q, TWO32 - 1);
    }
  }

  lemma MulMono(a: nat, b: nat)
    requires a <= b
    ensures a * a <= b * b
  {
    var d := b - a;
    assert b * b == a * a + 2 * (a * d) + d * d;
  }

  /** One round of the second loop. */
  lemma RootStep(n0: nat, n: nat, root: nat, bit: nat, r: nat, p: nat, k: nat)
    requires Partial(n0, n, root, bit, r, p, k) && k >= 1 && r * r <= n0
    ensures root + bit < TWO64
    ensures var q := p / 2;
      if n >= root + bit
      then (r + q) * (r + q) <= n0 && Partial(n0, n - (root + bit), root / 2 + bit, bit / 4, r + q, q, k - 1)
      else Partial(n0, n, root / 2, bit / 4, r, q, k - 1)
  {
    var q := Pow2(k - 1);
    Square(r, q);
    NoOverflow(r, q);
    assert r + q + q == r + p;
    assert p == 2 * q && p / 2 == q && bit == q * q;
  }

  lemma LastRound(n0: nat, n: nat, root: nat, bit: nat, r: nat, p: nat, k: nat)
    requires Partial(n0, n, root, bit, r, p, k)
    ensures bit == 0 <==> k == 0
    ensures k == 0 ==> root == r && n0 < (r + 1) * (r + 1) && r < TWO32
  {
    if k >= 1 {
      var q := Pow2(k - 1);
      Square(r, q);
      assert q * q >= 1;
    }
  }

  /** While bit > n nothing of the root is found. */
  lemma SkipBit(n: nat, bit: nat, p: nat, k: nat)
    requires Partial(n, n, 0, bit, 0, p, k) && bit > n
    ensures k >= 1 && Partial(n, n, 0, bit / 4, 0, p / 2, k - 1)
  {
    LastRound(n, n, 0, bit, 0, p, k);
    var q := Pow2(k - 1);
    Square(0, q);
  }

  /** The integer square root of any 64-bit number; no intermediate value leaves 64 bits. */
  method Isqrt(n0: nat) returns (root: nat)
    requires n0 < TWO64
    ensures root * root <= n0 < (root + 1) * (root + 1) && root < TWO32
  {
    hide Partial;
    var n: nat := n0;
    root := 0;
    var bit: nat := 0x4000_0000_0000_0000;
    ghost var r: nat, p: nat, k: nat := 0, TWO32, 32;
    StartBit(n0);
    while bit > n
      invariant root == r == 0 && n == n0 && Partial(n0, n, root, bit, r, p, k)
      decreases k
    {
      SkipBit(n, bit, p, k);
      bit := bit / 4;
      p, k := p / 2, k - 1;
    }
    while bit != 0
      invariant r * r <= n0 && Partial(n0, n, root, bit, r, p, k)
      decreases k
    {
      LastRound(n0, n, root, bit, r, p, k);
      RootStep(n0, n, root, bit, r, p, k);
      assert root + bit < TWO64;
      if n >= root + bit {
        n := n - (root + bit);
        root := root / 2 + bit;
        r := r + p / 2;
      } else {
        root := root / 2;
      }
      bit := bit / 4;
      p, k := p / 2, k - 1;
    }
    LastRound(n0, n, root, bit, r, p, k);
  }

  lemma StartBit(n: nat)
    requires n < TWO64
    ensures Partial(n, n, 0, 0x4000_0000_0000_0000, 0, TWO32, 32)
  {
    assert Pow2(8) == 256;
    assert Pow2(16) == 0x1_0000;
    assert Pow2(24) == 0x100_0000;
    assert Pow2(32) == TWO32;
  }

  // ----- The resampler -----

  /** Uncompressed samples; the callers admit 8, 16 and 24 bits and at least one channel. */
  datatype Pcm = Pcm(data: seq<Byte>, bits: nat, channels: nat, rate: nat)

  predicate Playable(w: Pcm) {
    && w.bits in {8, 16, 24} && w.channels >= 1 && w.rate >= 1
    && |w.data| < TWO32 && w.rate < TWO32
  }

  function FrameSize(w: Pcm): nat { w.channels * (w.bits / 8) }

  function Frames(w: Pcm): nat
    requires Playable(w)
  {
    |w.data| / FrameSize(w)
  }

  function Signed16(u: int): int
    requires 0 <= u < 0x1_0000
  {
    if u < 0x8000 then u else u - 0x1_0000
  }

  /** A sample scaled to 16 bits. */
  function Sample(w: Pcm, o: nat): (s: int)
    requires Playable(w) && o + w.bits / 8 <= |w.data|
    ensures -32768 <= s <= 32767
  {
    var b := w.data;
    if w.bits == 8 then (b[o] as int - 128) * 256
    else if w.bits == 16 then Signed16(b[o] as int + 256 * b[o + 1] as int)
    else
      var u := 0x100 * b[o] as int + 0x1_0000 * b[o + 1] as int + 0x100_0000 * b[o + 2] as int;
      (if u < 0x8000_0000 then u else u - 0x1_0000_0000) / 0x1_0000
  }

  /** Left or right of frame idx; a single channel serves as both. */
  function Channel(w: Pcm, idx: nat, right: bool): (s: int)
    requires Playable(w) && idx < Frames(w)
    ensures -32768 <= s <= 32767
  {
    FrameInside(w, idx);
    Sample(w, idx * FrameSize(w) + if right && w.channels >= 2 then w.bits / 8 else 0)
  }

  /** A sample from its bytes: 8 bits are unsigned around 128; of 16 and 24 bits the upper two bytes
      count, the last with the sign. */
  lemma ChannelBytes(w: Pcm, idx: nat, right: bool, o: nat)
    requires Playable(w) && idx < Frames(w)
    requires o == idx * (w.channels * (w.bits / 8)) + (if right && w.channels > 1 then w.bits / 8 else 0)
    ensures o + w.bits / 8 <= |w.data|
    ensures var s, b := Channel(w, idx, right), w.data;
      && (w.bits == 8 ==> s == 256 * b[o] as int - 32768)
      && (w.bits == 16 ==> s == b[o] as int + 256 * b[o + 1] as int - if b[o + 1] >= 128 then 65536 else 0)
      && (w.bits == 24 ==> s == b[o + 1] as int + 256 * b[o + 2] as int - if b[o + 2] >= 128 then 65536 else 0)
  {
    FrameInside(w, idx);
    hide Frames, FrameSize;
    assert FrameSize(w) == w.channels * (w.bits / 8);
    SampleBytes(w, o);
  }

  lemma SampleBytes(w: Pcm, o: nat)
    requires Playable(w) && o + w.bits / 8 <= |w.data|
    ensures var s, b := Sample(w, o), w.data;
      && (w.bits == 8 ==> s == 256 * b[o] as int - 32768)
      && (w.bits == 16 ==> s == b[o] as int + 256 * b[o + 1] as int - if b[o + 1] >= 128 then 65536 else 0)
      && (w.bits == 24 ==> s == b[o + 1] as int + 256 * b[o + 2] as int - if b[o + 2] >= 128 then 65536 else 0)
  {
  }

  lemma FrameInside(w: Pcm, idx: nat)
    requires Playable(w) && idx < Frames(w)
    ensures idx * FrameSize(w) + FrameSize(w) <= |w.data|
    ensures w.bits / 8 <= FrameSize(w) && (w.channels >= 2 ==> 2 * (w.bits / 8) <= FrameSize(w))
  {
    var f := FrameSize(w);
    MulGrows(idx, Frames(w), f);
    assert Frames(w) * f <= |w.data|;
  }

  function Quotient(a: nat, b: nat): nat
    requires b > 0
  {
    a / b
  }

  function OutFrames(w: Pcm): nat
    requires Playable(w)
  {
    if w.rate == 48000 then Frames(w) else Quotient(Frames(w) * 48000 + w.rate / 2, w.rate)
  }

  /** The output lasts as long as the input, to within half a frame of it. */
  lemma DurationKept(w: Pcm)
    requires Playable(w)
    ensures var n := OutFrames(w) * w.rate;
      2 * n <= 96000 * Frames(w) + w.rate && 96000 * Frames(w) <= 2 * n + w.rate
  {
    hide Frames;
    if w.rate != 48000 { Nearest(Frames(w) * 48000, w.rate); }
  }

  lemma Nearest(a: nat, r: nat)
    requires r > 0
    ensures var n := Quotient(a + r / 2, r) * r; 2 * n <= 2 * a + r && 2 * a <= 2 * n + r
  {
    var q := Quotient(a + r / 2, r);
    assert a + r / 2 == q * r + (a + r / 2) % r;
  }

  /** The fixed-point source position of output frame i. */
  function Position(w: Pcm, i: nat): nat { i * w.rate * 65536 / 48000 }

  /** Its integer part is the frame at or before the exact position i * rate / 48000, and its
      fraction the exact one rounded down to a 65536th. */
  lemma PositionParts(a: nat)
    ensures var p := a * 65536 / 48000; var m := a % 48000;
      && p / 65536 == a / 48000 && p % 65536 == m * 65536 / 48000
      && 48000 * (p % 65536) <= 65536 * m < 48000 * (p % 65536 + 1)
  {
    var q, m := a / 48000, a % 48000;
    var g := m * 65536 / 48000;
    DivMod(a * 65536, 48000, q * 65536 + g, m * 65536 - 48000 * g);
    DivMod(q * 65536 + g, 65536, q, g);
  }

  /** Every source index is a frame of the input, and no product leaves 64 bits. */
  lemma IndexInside(w: Pcm, i: nat)
    requires Playable(w) && i < OutFrames(w)
    ensures Position(w, i) / 65536 == i * w.rate / 48000 < Frames(w)
    ensures i * w.rate * 65536 < TWO64 && Frames(w) * 48000 + w.rate / 2 < TWO64
  {
    FramesBound(w);
    RateBound(w, i);
    PositionParts(i * w.rate);
  }

  lemma FramesBound(w: Pcm)
    requires Playable(w)
    ensures Frames(w) < TWO32
  {
    MulGrows(0, w.channels, w.bits / 8);
    QuotientLe(|w.data|, FrameSize(w));
  }

  lemma QuotientLe(a: nat, f: nat)
    requires f >= 1
    ensures a / f <= a
  {
    var q := a / f;
    assert a == f * q + a % f;
    MulGrows(0, f, q);
  }

  lemma RateBound(w: Pcm, i: nat)
    requires Playable(w) && i < OutFrames(w)
    ensures i * w.rate < Frames(w) * 48000
  {
    if w.rate != 48000 {
      var n := Frames(w) * 48000 + w.rate / 2;
      MulGrows(i, OutFrames(w), w.rate);
      assert OutFrames(w) * w.rate <= n;
    }
  }

  /** The interpolated value in the source's arithmetic: an arithmetic shift right by 16. */
  function Mix(s0: int, s1: int, frac: nat): int { (s0 * (65536 - frac) + s1 * frac) / 65536 }

  /** It lies between its two samples, so that the clamp never fires, and no intermediate value
      leaves 32 bits. */
  lemma MixBounds(s0: int, s1: int, frac: nat)
    requires -32768 <= s0 <= 32767 && -32768 <= s1 <= 32767 && frac < 65536
    ensures -0x8000_0000 <= s0 * (65536 - frac) < 0x8000_0000 && -0x8000_0000 <= s1 * frac < 0x8000_0000
    ensures -0x8000_0000 <= s0 * (65536 - frac) + s1 * frac < 0x8000_0000
    ensures (if s0 <= s1 then s0 else s1) <= Mix(s0, s1, frac) <= (if s0 <= s1 then s1 else s0)
  {
    var lo, hi := if s0 <= s1 then s0 else s1, if s0 <= s1 then s1 else s0;
    var v := s0 * (65536 - frac) + s1 * frac;
    Scale(lo, s0, hi, 65536 - frac);
    Scale(lo, s1, hi, frac);
    Scale(-32768, s0, 32767, 65536 - frac);
    Scale(-32768, s1, 32767, frac);
    assert lo * (65536 - frac) + lo * frac == lo * 65536;
    assert hi * (65536 - frac) + hi * frac == hi * 65536;
    assert lo * 65536 <= v <= hi * 65536;
  }

  lemma Scale(lo: int, s: int, hi: int, f: nat)
    requires lo <= s <= hi
    ensures lo * f <= s * f <= hi * f
  {
    assert (s - lo) * f >= 0 && (hi - s) * f >= 0;
  }

  /** The exact interpolation at i * rate / 48000, times 48000. */
  function Exact(s0: int, s1: int, m: nat): int { 48000 * s0 + (s1 - s0) * m }

  /** Rounding the position and the result costs less than two units of a 16-bit sample. */
  lemma MixClose(s0: int, s1: int, m: nat, frac: nat)
    requires -32768 <= s0 <= 32767 && -32768 <= s1 <= 32767
    requires 48000 * frac <= 65536 * m < 48000 * (frac + 1)
    ensures -96000 < 48000 * Mix(s0, s1, frac) - Exact(s0, s1, m) < 96000
  {
    var d := s1 - s0;
    var v := s0 * (65536 - frac) + s1 * frac;
    var e := 65536 * m - 48000 * frac;
    assert v == 65536 * s0 + d * frac;
    assert 65536 * (d * m) == d * (48000 * frac) + d * e;
    assert -65535 * e <= d * e <= 65535 * e by { Scale(-65535, d, 65535, e); }
    assert d * (48000 * frac) == 48000 * (d * frac);
    var out := Mix(s0, s1, frac);
    assert 65536 * out <= v < 65536 * out + 65536;
  }

  /** What is written for channel `right` of output frame i. */
  ghost predicate Resampled(w: Pcm, i: nat, right: bool, out: int)
    requires Playable(w) && i < OutFrames(w)
  {
    IndexInside(w, i);
    var idx := i * w.rate / 48000;
    var next := if idx + 1 < Frames(w) then idx + 1 else idx;
    var s0, s1 := Channel(w, idx, right), Channel(w, next, right);
    && (if s0 <= s1 then s0 else s1) <= out <= (if s0 <= s1 then s1 else s0)
    && -96000 < 48000 * out - Exact(s0, s1, i * w.rate % 48000) < 96000
    && (i * w.rate % 48000 == 0 ==> out == s0)
  }

  /** Between two samples there is nothing to clamp. */
  function Clamp(x: int): (r: int)
    ensures -32768 <= r <= 32767 && (-32768 <= x <= 32767 ==> r == x)
  {
    if x > 32767 then 32767 else if x < -32768 then -32768 else x
  }

  lemma OneSample(w: Pcm, i: nat, right: bool)
    requires Playable(w) && i < OutFrames(w)
    ensures Position(w, i) / 65536 < Frames(w)
    ensures var p := Position(w, i); var idx := p / 65536; var next := if idx + 1 < Frames(w) then idx + 1 else idx;
      Resampled(w, i, right, Clamp(Mix(Channel(w, idx, right), Channel(w, next, right), p % 65536)))
  {
    hide Channel, Mix, OutFrames, Frames, Playable;
    IndexInside(w, i);
    var p := Position(w, i);
    var idx := p / 65536;
    var next := if idx + 1 < Frames(w) then idx + 1 else idx;
    PositionParts(i * w.rate);
    MixBounds(Channel(w, idx, right), Channel(w, next, right), p % 65536);
    MixClose(Channel(w, idx, right), Channel(w, next, right), i * w.rate % 48000, p % 65536);
    MixNone(Channel(w, idx, right), Channel(w, next, right));
  }

  lemma MixNone(s0: int, s1: int)
    ensures Mix(s0, s1, 0) == s0
  {
  }

  /** The resampling loop; the output buffer must have a 32-bit size. */
  method Resample(w: Pcm) returns (out: array<int>)
    requires Playable(w) && 4 * OutFrames(w) < TWO32
    ensures out.Length == 2 * OutFrames(w)
    ensures forall i :: 0 <= i < OutFrames(w) ==>
      Resampled(w, i, false, out[2 * i]) && Resampled(w, i, true, out[2 * i + 1])
  {
    var n := Frames(w);
    var frames := OutFrames(w);
    hide Channel, Mix, OutFrames, Frames, Playable, Resampled, Clamp;
    out := new int[2 * frames];
    var i := 0;
    while i < frames
      invariant 0 <= i <= frames
      invariant forall j :: 0 <= j < i ==> Resampled(w, j, false, out[2 * j]) && Resampled(w, j, true, out[2 * j + 1])
    {
      OneSample(w, i, false);
      OneSample(w, i, true);
      var pos := Position(w, i);
      var idx0 := pos / 65536;
      var idx1 := if idx0 + 1 < n then idx0 + 1 else idx0;
      var frac := pos % 65536;
      out[2 * i] := Clamp(Mix(Channel(w, idx0, false), Channel(w, idx1, false), frac));
      out[2 * i + 1] := Clamp(Mix(Channel(w, idx0, true), Channel(w, idx1, true), frac));
      i := i + 1;
    }
  }

  // ----- Playing a file -----

  /** At 48000 samples a second every frame is its own. */
  lemma SameRate(w: Pcm, i: nat, right: bool)
    requires Playable(w) && w.rate == 48000 && i < OutFrames(w)
    ensures i < Frames(w) && Resampled(w, i, right, Channel(w, i, right))
  {
    IndexInside(w, i);
    hide Channel, Frames;
    assert i * 48000 / 48000 == i && i * 48000 % 48000 == 0;
  }

  /** The signed word at byte o. */
  function WordAt(b: seq<Byte>, o: nat): int
    requires o + 2 <= |b|
  {
    Signed16(b[o] as int + 256 * b[o + 1] as int)
  }

  /** So is every 16-bit sample, which is the word at byte o. */
  lemma DirectSample(w: Pcm, i: nat, right: bool, o: nat)
    requires Playable(w) && w.rate == 48000 && w.bits == 16 && i < OutFrames(w)
    requires o == i * (w.channels * 2) + if right && w.channels > 1 then 2 else 0
    ensures o + 2 <= |w.data|
    ensures Resampled(w, i, right, WordAt(w.data, o))
  {
    hide Resampled, Channel, Frames, Sample;
    SameRate(w, i, right);
    ChannelBytes(w, i, right, o);
  }

  /** Two samples for each output frame, left and right. */
  ghost predicate IsPlayed(w: Pcm, out: seq<int>)
    requires Playable(w)
  {
    && |out| == 2 * OutFrames(w)
    && forall i :: 0 <= i < OutFrames(w) ==>
         Resampled(w, i, false, out[2 * i]) && Resampled(w, i, true, out[2 * i + 1])
  }

  /** usb_audio_play_wav behind the parser: what is refused, and what is played of the rest. Both
      short cuts play what the resampler would. */
  method PlayWav(format: nat, w: Pcm) returns (r: Option<seq<int>>)
    requires |w.data| < TWO32 && 1 <= w.rate < TWO32 && (Playable(w) ==> 4 * OutFrames(w) < TWO32)
    ensures r.Some? <==>
      w.data != [] && format == 1 && w.channels != 0 && (w.bits == 8 || w.bits == 16 || w.bits == 24)
    ensures r.Some? ==> Playable(w) && IsPlayed(w, r.value)
  {
    if |w.data| == 0 || format != 1 || w.channels == 0 || (w.bits != 8 && w.bits != 16 && w.bits != 24) {
      return None;
    }
    if w.rate == 48000 && w.channels == 2 && w.bits == 16 {
      r := Some(AsStereo(w));
    } else if w.rate == 48000 && w.channels == 1 && w.bits == 16 {
      var out := ExpandMono(w);
      r := Some(out);
    } else {
      hide Playable, OutFrames, Resampled;
      var out := Resample(w);
      r := Some(out[..]);
    }
  }

  /** The buffer itself, read as samples. */
  function AsStereo(w: Pcm): (out: seq<int>)
    requires Playable(w) && w.rate == 48000 && w.channels == 2 && w.bits == 16
    ensures IsPlayed(w, out)
  {
    var n := |w.data| / 4;
    var out := seq(2 * n, j requires 0 <= j < 2 * n => WordAt(w.data, 2 * j));
    StereoPlayed(w, n, out);
    out
  }

  lemma StereoPlayed(w: Pcm, n: nat, out: seq<int>)
    requires Playable(w) && w.rate == 48000 && w.channels == 2 && w.bits == 16
    requires n == |w.data| / 4 && |out| == 2 * n && forall j :: 0 <= j < 2 * n ==> out[j] == WordAt(w.data, 2 * j)
    ensures IsPlayed(w, out)
  {
    assert OutFrames(w) == n;
    hide Resampled, WordAt, OutFrames, Playable;
    forall i | 0 <= i < n ensures Resampled(w, i, false, out[2 * i]) && Resampled(w, i, true, out[2 * i + 1]) {
      DirectSample(w, i, false, 4 * i);
      DirectSample(w, i, true, 4 * i + 2);
      assert out[2 * i] == WordAt(w.data, 2 * (2 * i)) && out[2 * i + 1] == WordAt(w.data, 2 * (2 * i + 1));
    }
  }

  method ExpandMono(w: Pcm) returns (out: seq<int>)
    requires Playable(w) && w.rate == 48000 && w.channels == 1 && w.bits == 16
    ensures IsPlayed(w, out)
  {
    var n := |w.data| / 2;
    assert OutFrames(w) == n;
    hide Resampled, WordAt, OutFrames, Playable;
    out := [];
    var i := 0;
    while i < n
      invariant 0 <= i <= n && |out| == 2 * i
      invariant forall j :: 0 <= j < i ==> Resampled(w, j, false, out[2 * j]) && Resampled(w, j, true, out[2 * j + 1])
    {
      DirectSample(w, i, false, 2 * i);
      DirectSample(w, i, true, 2 * i);
      var s := WordAt(w.data, 2 * i);
      out := out + [s, s];
      i := i + 1;
    }
  }
}
