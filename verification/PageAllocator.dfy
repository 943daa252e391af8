/** Bits of a 32-bit word, as the BITMAP macros use them. */
module Bits {
  function Mask(k: nat): bv32
    requires k < 32
  {
    (1 as bv32) << k
  }

  predicate AnyBit(w: bv32, m: bv32) { w & m != 0 }

  function With(w: bv32, m: bv32): bv32 { w | m }

  function Without(w: bv32, m: bv32): bv32 { w & !m }

  predicate Apart(a: bv32, b: bv32) { a & b == 0 }

  lemma WithOther(w: bv32, a: bv32, b: bv32)
    requires Apart(a, b)
    ensures AnyBit(With(w, a), b) == AnyBit(w, b)
  {
  }

  lemma WithoutOther(w: bv32, a: bv32, b: bv32)
    requires Apart(a, b)
    ensures AnyBit(Without(w, a), b) == AnyBit(w, b)
  {
  }

  lemma WithSelf(w: bv32, a: bv32)
    requires a != 0
    ensures AnyBit(With(w, a), a)
  {
  }

  lemma WithoutSelf(w: bv32, a: bv32)
    ensures !AnyBit(Without(w, a), a)
  {
  }

  lemma MaskNonzero(i: nat)
    requires i < 32
    ensures Mask(i) != 0
  {
  }

  lemma MasksApart(i: nat, j: nat)
    requires i < 32 && j < 32 && i != j
    ensures Apart(Mask(i), Mask(j))
  {
  }

  /** Setting or clearing bit i changes bit i and no other. */
  lemma BitLaws(w: bv32, i: nat, j: nat)
    requires i < 32 && j < 32
    ensures AnyBit(With(w, Mask(i)), Mask(j)) == (i == j || AnyBit(w, Mask(j)))
    ensures AnyBit(Without(w, Mask(i)), Mask(j)) == (i != j && AnyBit(w, Mask(j)))
  {
    hide Mask, With, Without, AnyBit, Apart;
    if i != j {
      MasksApart(i, j);
      WithOther(w, Mask(i), Mask(j));
      WithoutOther(w, Mask(i), Mask(j));
    } else {
      MaskNonzero(i);
      WithSelf(w, Mask(i));
      WithoutSelf(w, Mask(i));
    }
  }
}

/**
  The physical page allocator: a bitmap of 32-bit words with a running count.
 */
module PageAllocator {
  import opened Prelude
  import opened Bits

  const PAGE_SIZE := 4096

  /** `used[p]` says whether page p is taken. */
  ghost function CountUsed(used: seq<bool>): nat { multiset(used)[true] }

  ghost predicate RunFree(used: seq<bool>, s: int, n: nat) {
    0 <= s && s + n <= |used| && forall p :: s <= p < s + n ==> !used[p]
  }

  ghost predicate RunUsed(used: seq<bool>, s: int, n: nat) {
    0 <= s && s + n <= |used| && forall p :: s <= p < s + n ==> used[p]
  }

  ghost function Marked(used: seq<bool>, s: nat, n: nat, value: bool): (r: seq<bool>)
    ensures |r| == |used|
  {
    seq(|used|, p requires 0 <= p < |used| => if s <= p < s + n then value else used[p])
  }

  /** r is lo plus a multiple of step. */
  ghost predicate OnGrid(lo: nat, step: nat, r: int)
    requires step > 0
  {
    lo <= r && (r - lo) % step == 0
  }

  /** s is the lowest start at or above lo, on the grid lo + k * step, of n free pages. */
  ghost predicate LowestRun(used: seq<bool>, lo: nat, step: nat, n: nat, s: nat)
    requires step > 0
  {
    && OnGrid(lo, step, s)
    && RunFree(used, s, n)
    && (forall r :: r < s && OnGrid(lo, step, r) ==> !RunFree(used, r, n))
  }

  lemma LowestFacts(used: seq<bool>, lo: nat, step: nat, n: nat, s: nat)
    requires step > 0 && LowestRun(used, lo, step, n, s)
    ensures OnGrid(lo, step, s) && RunFree(used, s, n) && lo <= s
  {
  }

  ghost predicate NoRun(used: seq<bool>, lo: nat, step: nat, n: nat)
    requires step > 0
  {
    forall r :: OnGrid(lo, step, r) ==> !RunFree(used, r, n)
  }

  /** The scan has reached page p: the stretch before it is free, and no run of count pages
      starts before that stretch. */
  ghost predicate Scanning(used: seq<bool>, lo: nat, p: nat, stretch: nat, count: nat) {
    && stretch < count && lo + stretch <= p
    && (p > lo ==> p <= |used|)
    && (stretch > 0 ==> RunFree(used, p - stretch, stretch))
    && (forall r :: lo <= r < p - stretch ==> !RunFree(used, r, count))
  }

  lemma ScanStart(used: seq<bool>, lo: nat, count: nat)
    requires count > 0
    ensures Scanning(used, lo, lo, 0, count)
  {
  }

  lemma ScanTaken(used: seq<bool>, lo: nat, p: nat, stretch: nat, count: nat)
    requires Scanning(used, lo, p, stretch, count) && p < |used| && used[p]
    ensures Scanning(used, lo, p + 1, 0, count)
  {
  }

  lemma ScanFree(used: seq<bool>, lo: nat, p: nat, stretch: nat, count: nat)
    requires Scanning(used, lo, p, stretch, count) && p < |used| && !used[p]
    ensures stretch + 1 <= count
    ensures if stretch + 1 < count then Scanning(used, lo, p + 1, stretch + 1, count)
            else LowestRun(used, lo, 1, count, p - stretch)
  {
  }

  lemma ScanEnd(used: seq<bool>, lo: nat, p: nat, stretch: nat, count: nat)
    requires Scanning(used, lo, p, stretch, count) && p >= |used|
    ensures NoRun(used, lo, 1, count)
  {
  }

  lemma MarkedStep(used: seq<bool>, s: nat, n: nat, value: bool)
    requires s + n < |used|
    ensures Marked(used, s, n + 1, value) == Marked(used, s, n, value)[s + n := value]
    ensures Marked(used, s, n, value)[s + n] == used[s + n]
  {
  }

  lemma MarkedZero(used: seq<bool>, s: nat, value: bool)
    ensures Marked(used, s, 0, value) == used
  {
  }

  lemma MarkedPast(used: seq<bool>, s: nat, n: nat)
    requires s + n >= |used|
    ensures Marked(used, s, n + 1, false) == Marked(used, s, n, false)
  {
  }

  lemma CountCleared(used: seq<bool>, p: nat)
    requires p < |used|
    ensures CountUsed(used[p := false]) == CountUsed(used) - if used[p] then 1 else 0
  {
  }

  lemma CountSet(used: seq<bool>, p: nat)
    requires p < |used|
    ensures CountUsed(used[p := true]) == CountUsed(used) + if used[p] then 0 else 1
  {
  }

  lemma {:induction false} CountMarked(used: seq<bool>, s: nat, n: nat, value: bool)
    requires if value then RunFree(used, s, n) else RunUsed(used, s, n)
    ensures CountUsed(Marked(used, s, n, value)) == CountUsed(used) as int + (if value then n as int else -(n as int))
  {
    hide Marked, CountUsed;
    if n == 0 {
      MarkedZero(used, s, value);
    } else {
      MarkedStep(used, s, n - 1, value);
      CountMarked(used, s, n - 1, value);
      CountCleared(Marked(used, s, n - 1, value), s + n - 1);
      CountSet(Marked(used, s, n - 1, value), s + n - 1);
    }
  }

  /** Freeing what was just allocated restores every bit and the count. */
  lemma FreeUndoesAlloc(used: seq<bool>, s: nat, n: nat)
    requires RunFree(used, s, n)
    ensures Marked(Marked(used, s, n, true), s, n, false) == used
    ensures CountUsed(Marked(used, s, n, true)) == CountUsed(used) + n
  {
    CountMarked(used, s, n, true);
  }

  predicate BitOf(words: seq<bv32>, p: nat)
    requires p / 32 < |words|
  {
    AnyBit(words[p / 32], Mask(p % 32))
  }

  ghost function UsedOf(words: seq<bv32>, n: nat): (r: seq<bool>)
    requires n <= 32 * |words|
    ensures |r| == n
  {
    seq(n, p requires 0 <= p < n => BitOf(words, p))
  }

  lemma UsedUpdate(words: seq<bv32>, n: nat, p: nat, w: bv32, value: bool)
    requires n <= 32 * |words| && p < n
    requires w == if value then With(words[p / 32], Mask(p % 32)) else Without(words[p / 32], Mask(p % 32))
    ensures UsedOf(words[p / 32 := w], n) == UsedOf(words, n)[p := value]
  {
    hide Mask, AnyBit, With, Without;
    var words' := words[p / 32 := w];
    forall q | 0 <= q < n ensures UsedOf(words', n)[q] == UsedOf(words, n)[p := value][q] {
      assert UsedOf(words', n)[q] == BitOf(words', q) && UsedOf(words, n)[q] == BitOf(words, q);
      if q / 32 == p / 32 {
        BitLaws(words[p / 32], p % 32, q % 32);
      }
    }
  }

  class Pmm {
    var bitmap: array<bv32>
    var totalPages: nat
    var usedPages: int
    var startPage: nat

    ghost predicate Shape()
      reads this
    {
      0 < startPage && totalPages <= 32 * bitmap.Length
    }

    ghost function Used(): (r: seq<bool>)
      reads this, bitmap
      requires Shape()
      ensures |r| == totalPages
    {
      UsedOf(bitmap[..], totalPages)
    }

    ghost predicate Valid()
      reads this, bitmap
    {
      Shape() && usedPages == CountUsed(Used())
    }

    method TestBit(p: nat) returns (b: bool)
      requires Shape() && p < totalPages
      ensures b == Used()[p]
    {
      hide Mask, AnyBit;
      b := AnyBit(bitmap[p / 32], Mask(p % 32));
    }

    method SetBit(p: nat)
      requires Shape() && p < totalPages
      modifies bitmap
      ensures Used() == old(Used())[p := true]
    {
      hide Mask, With, UsedOf;
      ghost var words := bitmap[..];
      bitmap[p / 32] := With(bitmap[p / 32], Mask(p % 32));
      UsedUpdate(words, totalPages, p, bitmap[p / 32], true);
      assert bitmap[..] == words[p / 32 := bitmap[p / 32]];
    }

    method ClearBit(p: nat)
      requires Shape() && p < totalPages
      modifies bitmap
      ensures Used() == old(Used())[p := false]
    {
      hide Mask, Without, UsedOf;
      ghost var words := bitmap[..];
      bitmap[p / 32] := Without(bitmap[p / 32], Mask(p % 32));
      UsedUpdate(words, totalPages, p, bitmap[p / 32], false);
      assert bitmap[..] == words[p / 32 := bitmap[p / 32]];
    }

    /** Mark a free run; the counter follows bit by bit. */
    method TakeRun(s: nat, count: nat)
      requires Valid() && RunFree(Used(), s, count)
      modifies bitmap, `usedPages
      ensures Valid()
      ensures Used() == Marked(old(Used()), s, count, true)
      ensures usedPages == old(usedPages) + count
    {
      ghost var used := Used();
      assert Marked(used, s, 0, true) == used;
      var i := 0;
      while i < count
        invariant 0 <= i <= count
        invariant Shape() && Used() == Marked(used, s, i, true)
        invariant usedPages == old(usedPages) + i
      {
        MarkedStep(used, s, i, true);
        SetBit(s + i);
        usedPages := usedPages + 1;
        i := i + 1;
      }
      CountMarked(used, s, count, true);
    }

    method AllocPages(count: nat) returns (addr: nat)
      requires Valid()
      modifies bitmap, `usedPages
      ensures Valid()
      ensures addr == 0 ==> Used() == old(Used()) && (count == 0 || NoRun(old(Used()), startPage, 1, count))
      ensures addr != 0 ==>
        && count > 0 && addr % 4096 == 0
        && LowestRun(old(Used()), startPage, 1, count, addr / 4096)
        && Used() == Marked(old(Used()), addr / 4096, count, true)
    {
      if count == 0 {
        return 0;
      }
      hide OnGrid, LowestRun, NoRun, RunFree, Marked;
      var s := FindRun(count);
      if s.None? {
        return 0;
      }
      LowestFacts(Used(), startPage, 1, count, s.value);
      TakeRun(s.value, count);
      addr := s.value * PAGE_SIZE;
      DivMod(addr, PAGE_SIZE, s.value, 0);
    }

    /** The scan of pmm_alloc_pages: the length of the free stretch behind p is enough. */
    method FindRun(count: nat) returns (s: Option<nat>)
      requires Shape() && count > 0
      ensures match s
              case None => NoRun(Used(), startPage, 1, count)
              case Some(f) => LowestRun(Used(), startPage, 1, count, f)
    {
      hide OnGrid, LowestRun, NoRun, RunFree, Scanning;
      ghost var used := Used();
      var contiguous, found := 0, 0;
      var p := startPage;
      ScanStart(used, startPage, count);
      while p < totalPages
        invariant startPage <= p && (p <= totalPages || p == startPage)
        invariant 0 <= contiguous <= p - startPage && (contiguous > 0 ==> found == p - contiguous)
        invariant Scanning(used, startPage, p, contiguous, count)
      {
        var taken := TestBit(p);
        if !taken {
          ScanFree(used, startPage, p, contiguous, count);
          if contiguous == 0 { found := p; }
          contiguous := contiguous + 1;
          if contiguous == count {
            return Some(found);
          }
        } else {
          ScanTaken(used, startPage, p, contiguous, count);
          contiguous := 0;
        }
        p := p + 1;
      }
      ScanEnd(used, startPage, p, contiguous, count);
      s := None;
    }

    // ----- pmm_alloc_pages_aligned -----

    /** The lowest free run on the grid that begins where ALIGN_UP puts the start page: aligned if
        and only if that page is, so for every power of two. */
    method AllocPagesAligned(count: nat, alignment: nat) returns (addr: nat)
      requires Valid()
      modifies bitmap, `usedPages
      ensures Valid()
      ensures var step := if alignment < 4096 then 1 else alignment / 4096; var lo := AlignUp(startPage, step);
        && (addr == 0 ==> Used() == old(Used()) && (count == 0 || NoRun(old(Used()), lo, step, count)))
        && (addr != 0 ==>
              && count > 0 && addr % 4096 == 0
              && LowestRun(old(Used()), lo, step, count, addr / 4096)
              && ((addr / 4096) % step == 0 <==> lo % step == 0)
              && (IsPow2(step) ==> (addr / 4096) % step == 0)
              && (IsPow2(alignment) ==> addr % alignment == 0)
              && Used() == Marked(old(Used()), addr / 4096, count, true))
    {
      if count == 0 {
        return 0;
      }
      assert AlignPages(alignment) == if alignment < 4096 then 1 else alignment / 4096;
      hide AlignUp, AlignPages, OnGrid, LowestRun, NoRun, RunFree, Marked, IsPow2;
      ghost var used := Used();
      var step := AlignPages(alignment);
      var lo := AlignUp(startPage, step);
      AlignUpBounds(startPage, step);
      var s := FindAlignedRun(count, lo, step);
      if s.None? {
        return 0;
      }
      LowestFacts(used, lo, step, count, s.value);
      GridMod(lo, s.value, step);
      TakeRun(s.value, count);
      addr := s.value * PAGE_SIZE;
      DivMod(addr, PAGE_SIZE, s.value, 0);
      AddressAligned(addr, s.value, alignment);
    }

    method FindAlignedRun(count: nat, lo: nat, step: nat) returns (s: Option<nat>)
      requires Shape() && count > 0 && step > 0 && lo > 0
      ensures match s
              case None => NoRun(Used(), lo, step, count)
              case Some(f) => f > 0 && LowestRun(Used(), lo, step, count, f)
    {
      ghost var used := Used();
      var p := lo;
      assert OnGrid(lo, step, lo);
      hide OnGrid;
      while p + count <= totalPages
        invariant lo <= p && OnGrid(lo, step, p)
        invariant forall r :: r < p && OnGrid(lo, step, r) ==> !RunFree(used, r, count)
        decreases totalPages + count - p
      {
        var match' := RunIsFree(p, count);
        if match' {
          return Some(p);
        }
        NextOnGrid(lo, p, step);
        p := p + step;
      }
      s := None;
    }

    method RunIsFree(p: nat, count: nat) returns (b: bool)
      requires Shape() && p + count <= totalPages
      ensures b == RunFree(Used(), p, count)
    {
      var i := 0;
      while i < count
        invariant 0 <= i <= count
        invariant forall q :: p <= q < p + i ==> !Used()[q]
      {
        var taken := TestBit(p + i);
        if taken {
          return false;
        }
        i := i + 1;
      }
      b := true;
    }

    // ----- pmm_free_pages -----

    /** Pages beyond the end and pages already free are skipped, so the count stays true. */
    method FreePages(addr: nat, count: nat)
      requires Valid()
      modifies bitmap, `usedPages
      ensures Valid()
      ensures Used() == if addr == 0 then old(Used()) else Marked(old(Used()), addr / 4096, count, false)
    {
      hide Marked;
      ghost var used := Used();
      var s := addr / PAGE_SIZE;
      MarkedZero(used, s, false);
      if addr == 0 || count == 0 {
        return;
      }
      var i := 0;
      while i < count
        invariant 0 <= i <= count
        invariant Valid() && Used() == Marked(used, s, i, false)
      {
        var p := s + i;
        if p < totalPages {
          MarkedStep(used, s, i, false);
          FreePage(p);
        } else {
          MarkedPast(used, s, i);
        }
        i := i + 1;
      }
    }

    /** A page that is free already is not counted down. */
    method FreePage(p: nat)
      requires Valid() && p < totalPages
      modifies bitmap, `usedPages
      ensures Valid() && Used() == old(Used())[p := false]
    {
      var taken := TestBit(p);
      if taken {
        ClearBit(p);
        usedPages := usedPages - 1;
      } else {
        assert Used()[p := false] == Used();
      }
    }

    /** One usable region of the memory map in pmm_init: cleared and counted unconditionally. */
    method ReleaseRegion(first: nat, last: nat)
      requires Shape() && first <= last <= totalPages
      modifies bitmap, `usedPages
      ensures Shape()
      ensures Used() == Marked(old(Used()), first, last - first, false)
      ensures usedPages == old(usedPages) - (last - first)
    {
      ghost var used := Used();
      assert Marked(used, first, 0, false) == used;
      var p := first;
      while p < last
        invariant first <= p <= last
        invariant Shape() && Used() == Marked(used, first, p - first, false)
        invariant usedPages == old(usedPages) - (p - first)
      {
        MarkedStep(used, first, p - first, false);
        ClearBit(p);
        usedPages := usedPages - 1;
        p := p + 1;
      }
    }

    /** The whole of pmm_init: all pages marked, then the regions of the map released in order. */
    method Init(es: seq<MapEntry>, kb: nat, kernelEnd: nat)
      requires kernelEnd > 0
      modifies this
      ensures Shape() && fresh(bitmap)
      ensures totalPages == TotalPages(es, kb) && startPage == StartPage(kernelEnd, totalPages)
      ensures var rs := Regions(es, startPage, totalPages);
        && Used() == Released(rs, totalPages, |rs|)
        && (Valid() <==> NoOverlap(rs, |rs|))
      ensures forall p: nat :: p < totalPages ==>
        (!Used()[p] <==> p >= startPage && (es == [] || exists e :: e in es && Gives(e, p)))
    {
      hide TotalPages, StartPage, Regions, Released, Counter, CountUsed, Covered, UsedOf, Marked, Gives;
      totalPages := CountPages(es, kb);
      bitmap := new bv32[(totalPages + 31) / 32](_ => 0xFFFF_FFFF);
      usedPages := totalPages;
      startPage := StartPage(kernelEnd, totalPages);
      StartPositive(kernelEnd, totalPages);
      var rs := Regions(es, startPage, totalPages);
      AllOnes(bitmap[..], totalPages);
      NoneReleased(rs, totalPages);
      var i := 0;
      while i < |rs|
        invariant 0 <= i <= |rs| && Shape() && fresh(bitmap)
        invariant totalPages == TotalPages(es, kb) && startPage == StartPage(kernelEnd, totalPages)
        invariant Used() == Released(rs, totalPages, i) && usedPages == Counter(rs, totalPages, i)
      {
        ReleasedStep(rs, totalPages, i);
        ReleaseRegion(rs[i].first, rs[i].last);
        i := i + 1;
      }
      InitCount(rs, totalPages, |rs|);
      forall p: nat | p < totalPages
        ensures !Used()[p] <==> p >= startPage && (es == [] || exists e :: e in es && Gives(e, p))
      {
        FreeAfterInit(es, startPage, totalPages, p);
      }
    }

    /** The first loop over the map. */
    method CountPages(es: seq<MapEntry>, kb: nat) returns (n: nat)
      ensures n == TotalPages(es, kb)
    {
      var maxAddr := 0;
      for i := 0 to |es|
        invariant maxAddr == MaxEnd(es[..i])
      {
        assert es[..i + 1][..i] == es[..i];
        if es[i].usable {
          var end := EndAddr(es[i]);
          if end > maxAddr {
            maxAddr := end;
          }
        }
      }
      assert es[..|es|] == es;
      if maxAddr > 0 {
        n := maxAddr / PAGE_SIZE;
      } else {
        var size := if es == [] && kb == 0 then 128 * 1024 else kb;
        n := size * 1024 % 0x1_0000_0000 / PAGE_SIZE;
      }
    }
  }

  lemma StartPositive(kernelEnd: nat, total: nat)
    requires kernelEnd > 0
    ensures StartPage(kernelEnd, total) > 0
  {
    AlignUpBounds(kernelEnd, 4096);
    AlignUpBounds(AlignUp(kernelEnd, 4096) + (total + 7) / 8, 4096);
  }

  lemma AllOnes(words: seq<bv32>, n: nat)
    requires n <= 32 * |words| && forall i :: 0 <= i < |words| ==> words[i] == 0xFFFF_FFFF
    ensures UsedOf(words, n) == seq(n, _ => true)
  {
    forall p | 0 <= p < n ensures UsedOf(words, n)[p] {
      MaskNonzero(p % 32);
      hide Mask;
      OnesHave(Mask(p % 32));
      assert words[p / 32] == 0xFFFF_FFFF;
    }
  }

  lemma OnesHave(m: bv32)
    requires m != 0
    ensures AnyBit(0xFFFF_FFFF, m)
  {
  }

  lemma NoneReleased(rs: seq<Region>, total: nat)
    requires InRange(rs, total)
    ensures Released(rs, total, 0) == seq(total, _ => true) && Counter(rs, total, 0) == total
  {
  }

  lemma ReleasedStep(rs: seq<Region>, total: nat, i: nat)
    requires i < |rs| && InRange(rs, total)
    ensures rs[i].first <= rs[i].last <= total
    ensures Released(rs, total, i + 1) == Marked(Released(rs, total, i), rs[i].first, rs[i].last - rs[i].first, false)
    ensures Counter(rs, total, i + 1) == Counter(rs, total, i) - (rs[i].last - rs[i].first)
  {
    hide Marked;
  }

  function AlignPages(alignment: nat): (n: nat)
    ensures n > 0
  {
    if alignment < PAGE_SIZE then 1 else alignment / PAGE_SIZE
  }

  lemma NextOnGrid(lo: nat, p: nat, step: nat)
    requires step > 0 && OnGrid(lo, step, p)
    ensures OnGrid(lo, step, p + step)
    ensures forall r :: p < r < p + step ==> !OnGrid(lo, step, r)
  {
    var q := (p - lo) / step;
    assert step * (q + 1) == step * q + step;
    DivMod(p + step - lo, step, q + 1, 0);
    forall r | p < r < p + step ensures !OnGrid(lo, step, r) {
      DivMod(r - lo, step, q, r - p);
    }
  }

  lemma GridMod(lo: nat, s: nat, step: nat)
    requires step > 0 && OnGrid(lo, step, s)
    ensures s % step == lo % step
  {
    var a, b := (s - lo) / step, lo / step;
    assert step * (a + b) == step * a + step * b;
    DivMod(s, step, a + b, lo % step);
  }

  /** An aligned page has an aligned address. */
  lemma AddressAligned(addr: nat, page: nat, alignment: nat)
    requires addr == page * PAGE_SIZE
    ensures IsPow2(alignment) ==> IsPow2(AlignPages(alignment))
    ensures IsPow2(alignment) && page % AlignPages(alignment) == 0 ==> addr % alignment == 0
  {
    if IsPow2(alignment) {
      FourAndPage();
      hide IsPow2;
      var n := AlignPages(alignment);
      if alignment < 4096 {
        PowersDivide(alignment, 4096);
        MultipleOf(addr, page, 4096, alignment);
      } else {
        PowersDivide(4096, alignment);
        PagesPower(alignment);
        if page % n == 0 {
          var q := page / n;
          assert page == n * q && alignment == n * 4096;
          assert addr == alignment * q;
          DivMod(addr, alignment, q, 0);
        }
      }
    }
  }

  lemma MultipleOf(x: nat, k: nat, m: nat, n: nat)
    requires x == k * m && n > 0 && m % n == 0
    ensures x % n == 0
  {
    assert m == n * (m / n);
    assert x == n * (k * (m / n));
    DivMod(x, n, k * (m / n), 0);
  }

  lemma {:induction false} PagesPower(a: nat)
    requires IsPow2(a) && a >= 4096
    ensures IsPow2(a / 4096)
  {
    if a > 4096 {
      FourAndPage();
      PowersDivide(4096, a);
      PowersDivide(4096, a / 2);
      PagesPower(a / 2);
      assert a / 2 / 4096 == a / 4096 / 2;
      assert a / 4096 % 2 == 0 by { HalvesAgree(a); }
    }
  }

  lemma HalvesAgree(a: nat)
    requires a % 2 == 0 && a / 2 % 4096 == 0
    ensures a / 4096 % 2 == 0
  {
    var q := a / 2 / 4096;
    assert a == 4096 * (2 * q);
  }

  /** With an alignment of three pages and the start at page four the code begins at page four. */
  lemma ThreePages()
    ensures AlignPages(3 * PAGE_SIZE) == 3 && AlignUp(4, 3) == 4 && AlignUp(4, 3) % 3 != 0
  {
    assert And(6, 2) == 2;
  }

  lemma RunUsedStep(used: seq<bool>, first: nat, n: nat)
    requires first + n <= |used|
    ensures RunUsed(used, first, n) <==> n == 0 || (RunUsed(used, first, n - 1) && used[first + n - 1])
  {
  }

  /** Clearing a region keeps the count true exactly when every page of it was counted. */
  lemma {:induction false} RegionCount(used: seq<bool>, first: nat, n: nat)
    requires first + n <= |used|
    ensures CountUsed(Marked(used, first, n, false)) >= CountUsed(used) - n
    ensures CountUsed(Marked(used, first, n, false)) == CountUsed(used) - n <==> RunUsed(used, first, n)
  {
    hide Marked, CountUsed, RunUsed;
    RunUsedStep(used, first, n);
    if n == 0 {
      MarkedZero(used, first, false);
    } else {
      RegionCount(used, first, n - 1);
      MarkedStep(used, first, n - 1, false);
      CountCleared(Marked(used, first, n - 1, false), first + n - 1);
    }
  }

  // ----- pmm_init -----

  /** An entry of the memory map; usable means type one with a 32-bit address. */
  datatype MapEntry = MapEntry(usable: bool, addr: nat, length: nat)

  /** Pages [first, last). */
  datatype Region = Region(first: nat, last: nat)

  /** 32-bit addition. */
  function EndAddr(e: MapEntry): (r: nat) { (e.addr + e.length) % 0x1_0000_0000 }

  function MaxEnd(es: seq<MapEntry>): nat {
    if es == [] then 0
    else
      var m := MaxEnd(es[..|es| - 1]);
      var e := es[|es| - 1];
      if e.usable && EndAddr(e) > m then EndAddr(e) else m
  }

  function TotalPages(es: seq<MapEntry>, kb: nat): nat {
    if MaxEnd(es) > 0 then MaxEnd(es) / PAGE_SIZE
    else (if es == [] && kb == 0 then 128 * 1024 else kb) * 1024 % 0x1_0000_0000 / PAGE_SIZE
  }

  /** Behind the kernel and the bitmap. */
  function StartPage(kernelEnd: nat, total: nat): nat {
    AlignUp(AlignUp(kernelEnd, 4096) + (total + 7) / 8, 4096) / PAGE_SIZE
  }

  /** The pages of an entry that are released: not below the start, not beyond the end. */
  function RegionOf(e: MapEntry, start: nat, total: nat): (r: Region)
    ensures r.first <= r.last <= total && (r.first < r.last ==> start <= r.first)
  {
    var a := if e.addr < start * PAGE_SIZE then start * PAGE_SIZE else e.addr;
    var last := Min(EndAddr(e) / PAGE_SIZE, total);
    if e.usable && a < EndAddr(e) && a / PAGE_SIZE < last
    then
      assert a / PAGE_SIZE >= start by { PageAbove(a, start); }
      Region(a / PAGE_SIZE, last)
    else Region(0, 0)
  }

  lemma PageAbove(a: nat, start: nat)
    requires a >= start * PAGE_SIZE
    ensures a / PAGE_SIZE >= start
  {
  }

  /** Without a memory map everything behind the start is released. */
  function Regions(es: seq<MapEntry>, start: nat, total: nat): (rs: seq<Region>)
    ensures forall i :: 0 <= i < |rs| ==> rs[i].first <= rs[i].last <= total
    ensures forall i :: 0 <= i < |rs| && rs[i].first < rs[i].last ==> start <= rs[i].first
  {
    if es == [] then [if start < total then Region(start, total) else Region(0, 0)]
    else seq(|es|, i requires 0 <= i < |es| => RegionOf(es[i], start, total))
  }

  ghost predicate InRange(rs: seq<Region>, total: nat) {
    forall i :: 0 <= i < |rs| ==> rs[i].first <= rs[i].last <= total
  }

  /** The bitmap after n regions. */
  ghost function Released(rs: seq<Region>, total: nat, n: nat): (r: seq<bool>)
    requires n <= |rs| && InRange(rs, total)
    ensures |r| == total
  {
    if n == 0 then seq(total, _ => true)
    else Marked(Released(rs, total, n - 1), rs[n - 1].first, rs[n - 1].last - rs[n - 1].first, false)
  }

  /** The counter after n regions. */
  ghost function Counter(rs: seq<Region>, total: nat, n: nat): int
    requires n <= |rs|
  {
    if n == 0 then total else Counter(rs, total, n - 1) - (rs[n - 1].last - rs[n - 1].first)
  }

  predicate Covered(r: Region, p: nat) { r.first <= p < r.last }

  /** A page is free exactly if some region has it. */
  lemma {:induction false} FreeIfCovered(rs: seq<Region>, total: nat, n: nat, p: nat)
    requires n <= |rs| && InRange(rs, total) && p < total
    ensures Released(rs, total, n)[p] <==> forall i :: 0 <= i < n ==> !Covered(rs[i], p)
  {
    if n > 0 {
      FreeIfCovered(rs, total, n - 1, p);
    }
  }

  /** The first n regions share no page. */
  ghost predicate NoOverlap(rs: seq<Region>, n: nat)
    requires n <= |rs|
  {
    forall i, j, p :: 0 <= i < j < n && Covered(rs[i], p) ==> !Covered(rs[j], p)
  }

  lemma StillMarked(rs: seq<Region>, total: nat, n: nat)
    requires n < |rs| && InRange(rs, total)
    ensures RunUsed(Released(rs, total, n), rs[n].first, rs[n].last - rs[n].first) <==>
      forall i, p :: 0 <= i < n && Covered(rs[i], p) ==> !Covered(rs[n], p)
  {
    hide Released;
    var used := Released(rs, total, n);
    var r := rs[n];
    assert r.first <= r.last <= total;
    if RunUsed(used, r.first, r.last - r.first) {
      forall i, p: nat | 0 <= i < n && Covered(rs[i], p) ensures !Covered(r, p) {
        if Covered(r, p) {
          assert used[p];
          FreeIfCovered(rs, total, n, p);
        }
      }
    } else {
      var p :| r.first <= p < r.last && !used[p];
      FreeIfCovered(rs, total, n, p);
      assert Covered(r, p);
    }
  }

  lemma {:induction false} AllMarked(total: nat)
    ensures CountUsed(seq(total, _ => true)) == total
  {
    if total > 0 {
      AllMarked(total - 1);
      assert seq(total, _ => true) == seq(total - 1, _ => true) + [true];
    }
  }

  /** The counter of pmm_init is never above the number of marked pages, and equals it if and only
      if no two released regions of the memory map share a page. */
  lemma {:induction false} InitCount(rs: seq<Region>, total: nat, n: nat)
    requires n <= |rs| && InRange(rs, total)
    ensures Counter(rs, total, n) <= CountUsed(Released(rs, total, n))
    ensures Counter(rs, total, n) == CountUsed(Released(rs, total, n)) <==> NoOverlap(rs, n)
  {
    hide CountUsed, Covered;
    if n == 0 {
      AllMarked(total);
    } else {
      hide Marked, RunUsed;
      InitCount(rs, total, n - 1);
      StillMarked(rs, total, n - 1);
      var r := rs[n - 1];
      RegionCount(Released(rs, total, n - 1), r.first, r.last - r.first);
      OverlapStep(rs, n);
    }
  }

  lemma OverlapStep(rs: seq<Region>, n: nat)
    requires 0 < n <= |rs|
    ensures NoOverlap(rs, n) <==>
      NoOverlap(rs, n - 1) && forall i, p :: 0 <= i < n - 1 && Covered(rs[i], p) ==> !Covered(rs[n - 1], p)
  {
    hide Covered;
  }

  /** The entry has page p or part of it at its beginning, and all of it at its end. */
  predicate Gives(e: MapEntry, p: nat) {
    e.usable && e.addr < 4096 * (p + 1) <= (e.addr + e.length) % 0x1_0000_0000
  }

  lemma EntryGives(e: MapEntry, start: nat, total: nat, p: nat)
    requires p < total
    ensures Covered(RegionOf(e, start, total), p) <==> p >= start && Gives(e, p)
  {
  }

  /** After pmm_init page p is free exactly if it is not below the start and some usable entry
      gives it, or there is no memory map. */
  lemma FreeAfterInit(es: seq<MapEntry>, start: nat, total: nat, p: nat)
    requires p < total
    ensures var rs := Regions(es, start, total);
      !Released(rs, total, |rs|)[p] <==> p >= start && (es == [] || exists e :: e in es && Gives(e, p))
  {
    hide Released, Gives, Covered, RegionOf;
    var rs := Regions(es, start, total);
    FreeIfCovered(rs, total, |rs|, p);
    if es == [] {
      WholeCovered(start, total, p);
      assert |rs| == 1 && rs[0] == if start < total then Region(start, total) else Region(0, 0);
      assert Covered(rs[0], p) <==> p >= start;
    } else {
      forall i | 0 <= i < |es| ensures Covered(rs[i], p) <==> p >= start && Gives(es[i], p) {
        EntryGives(es[i], start, total, p);
      }
    }
  }

  lemma WholeCovered(start: nat, total: nat, p: nat)
    requires p < total
    ensures Covered(if start < total then Region(start, total) else Region(0, 0), p) <==> p >= start
  {
  }

  /** A page that an entry gives lies inside it, except for the first one of an entry that does not
      begin on a page boundary. */
  lemma GivenInside(e: MapEntry, p: nat)
    requires Gives(e, p)
    ensures e.addr <= 4096 * p && 4096 * p + 4096 <= e.addr + e.length <==>
      e.addr % 4096 == 0 || p > e.addr / 4096
  {
  }

  /** An entry that begins in the middle of page 256 gives the whole page away. */
  lemma PartialPage(e: MapEntry, total: nat)
    requires e == MapEntry(true, 0x10_0800, 0x70_0000) && total > 256
    ensures Covered(RegionOf(e, 200, total), 256) && e.addr > 4096 * 256
  {
    EntryGives(e, 200, total, 256);
  }

  /** A usable entry that ends above address zero, behind page n. */
  ghost predicate Ends(es: seq<MapEntry>, e: MapEntry, n: nat) {
    var end := (e.addr + e.length) % 0x1_0000_0000;
    e in es && e.usable && end > 0 && 4096 * n <= end
  }

  /** As many pages as fit below the highest end of a usable entry; without one, into the size
      given in kilobytes, and without either into 128 megabytes. */
  lemma PageTotal(es: seq<MapEntry>, kb: nat, i: nat, n: nat)
    requires n == TotalPages(es, kb)
    ensures i < |es| && es[i].usable ==> (es[i].addr + es[i].length) % 0x1_0000_0000 < 4096 * (n + 1)
    ensures if exists e :: Ends(es, e, 0) then exists e :: Ends(es, e, n)
            else n == if es == [] && kb == 0 then 32768 else kb * 1024 % 0x1_0000_0000 / 4096
  {
    MaxEndIs(es, i);
    hide MaxEnd;
    var m := MaxEnd(es);
    if m > 0 {
      var e :| e in es && e.usable && EndAddr(e) == m;
      assert Ends(es, e, 0) && Ends(es, e, n);
    } else if e :| Ends(es, e, 0) {
      var j :| 0 <= j < |es| && es[j] == e;
      MaxEndIs(es, j);
    }
  }

  lemma {:induction false} MaxEndIs(es: seq<MapEntry>, i: nat)
    ensures i < |es| && es[i].usable ==> EndAddr(es[i]) <= MaxEnd(es)
    ensures MaxEnd(es) > 0 ==> exists e :: e in es && e.usable && EndAddr(e) == MaxEnd(es)
  {
    if es != [] { MaxEndIs(es[..|es| - 1], i); }
  }

  /** The start is the first page behind the kernel's last page and one bit for each page. */
  lemma StartBounds(kernelEnd: nat, total: nat, q: nat, b: nat)
    requires 4096 * q < kernelEnd <= 4096 * (q + 1) && 8 * b < total <= 8 * (b + 1)
    ensures var s := StartPage(kernelEnd, total); 4096 * (s - 1) <= 4096 * (q + 1) + b < 4096 * s
  {
    FourAndPage();
    hide IsPow2, AlignUp;
    AlignUpBounds(kernelEnd, 4096);
    AlignUpBounds(4096 * (q + 1) + b + 1, 4096);
    assert (total + 7) / 8 == b + 1;
    assert AlignUp(kernelEnd, 4096) == 4096 * (q + 1);
  }

  /** A map of eight megabytes whose last one is listed twice, behind a kernel that ends at one
      megabyte: the counter ends at one page, although the 257 below the start are still marked. */
  lemma OverlapMiscounts(es: seq<MapEntry>, kernelEnd: nat)
    requires es == [MapEntry(true, 0x10_0000, 0x70_0000), MapEntry(true, 0x70_0000, 0x10_0000)]
    requires kernelEnd == 0x10_0000
    ensures var total := TotalPages(es, 0); var start := StartPage(kernelEnd, total);
      var rs := Regions(es, start, total);
      && total == 2048 && start == 257 && rs == [Region(257, 2048), Region(1792, 2048)]
      && Counter(rs, total, |rs|) == 1 < CountUsed(Released(rs, total, |rs|))
  {
    hide AlignUp, CountUsed, Released;
    MapSize(es);
    KernelStart(kernelEnd);
    var rs := Regions(es, 257, 2048);
    assert RegionOf(es[0], 257, 2048) == Region(257, 2048);
    assert RegionOf(es[1], 257, 2048) == Region(1792, 2048);
    assert rs == [Region(257, 2048), Region(1792, 2048)];
    hide Regions, RegionOf;
    assert Counter(rs, 2048, 0) == 2048;
    assert Counter(rs, 2048, 1) == 257;
    assert Covered(rs[0], 1792) && Covered(rs[1], 1792);
    InitCount(rs, 2048, 2);
  }

  lemma MapSize(es: seq<MapEntry>)
    requires es == [MapEntry(true, 0x10_0000, 0x70_0000), MapEntry(true, 0x70_0000, 0x10_0000)]
    ensures TotalPages(es, 0) == 2048
  {
    assert es[..1] == [es[0]] && es[..1][..0] == [];
    assert MaxEnd(es[..1]) == 0x80_0000;
  }

  lemma KernelStart(kernelEnd: nat)
    requires kernelEnd == 0x10_0000
    ensures StartPage(kernelEnd, 2048) == 257
  {
    FourAndPage();
    hide IsPow2, AlignUp;
    AlignUpBounds(kernelEnd, 4096);
    AlignUpBounds(kernelEnd + 256, 4096);
  }
}
