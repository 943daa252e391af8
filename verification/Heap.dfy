/**
  kmalloc, kfree and their relatives on memory: block headers of five words rewritten
  in place and linked both ways.  A word lives in the cell of its address.
 */
module Heap {
  import opened Prelude
  import opened BlockList

  const MAGIC := 0xCAFEBABE

  const SIZE := 4
  const FREE := 8
  const NEXT := 12
  const PREV := 16

  ghost function NextAddr(bs: seq<Block>, i: int): nat
    requires 0 <= i < |bs|
  {
    if i + 1 < |bs| then bs[i + 1].addr else 0
  }

  ghost function PrevAddr(bs: seq<Block>, i: int): nat
    requires 0 <= i < |bs|
  {
    if i > 0 then bs[i - 1].addr else 0
  }

  /** The header at address a. */
  ghost predicate HeaderAt(mem: seq<int>, a: nat, size: nat, free: bool, next: nat, prev: nat) {
    && a + HEADER <= |mem|
    && mem[a] == MAGIC
    && mem[a + SIZE] == size
    && mem[a + FREE] == (if free then 1 else 0)
    && mem[a + NEXT] == next
    && mem[a + PREV] == prev
  }

  /** Memory holds the header of block i, linked to its neighbours in the list. */
  ghost predicate Stored(mem: seq<int>, bs: seq<Block>, i: int)
    requires 0 <= i < |bs|
  {
    HeaderAt(mem, bs[i].addr, bs[i].size, bs[i].free, NextAddr(bs, i), PrevAddr(bs, i))
  }

  /** The five words of a header: a mark, the size, whether the block is free, and the addresses of
      the next and of the previous header, or zero. */
  lemma HeaderWords(mem: seq<int>, bs: seq<Block>, i: nat)
    requires i < |bs|
    ensures Stored(mem, bs, i) <==>
      var a := bs[i].addr;
      && a + 20 <= |mem| && mem[a] == 0xCAFEBABE && mem[a + 4] == bs[i].size
      && mem[a + 8] == (if bs[i].free then 1 else 0)
      && mem[a + 12] == (if i + 1 < |bs| then bs[i + 1].addr else 0)
      && mem[a + 16] == (if i == 0 then 0 else bs[i - 1].addr)
  {
  }

  /** Tiling and headers; two free neighbours may still wait to be merged. */
  ghost predicate Laid(mem: seq<int>, bs: seq<Block>, base: nat, end: nat) {
    && 0 < base
    && end <= |mem|
    && Tiled(bs, base, end)
    && (forall i :: 0 <= i < |bs| ==> Stored(mem, bs, i))
  }

  /** No cell of a live payload differs. */
  ghost predicate PayloadsKept(m: seq<int>, m': seq<int>, bs: seq<Block>) {
    && |m'| == |m|
    && (forall b, x :: b in bs && !b.free && PayloadStart(b) <= x < EndOf(b) && x < |m| ==> m'[x] == m[x])
  }

  // ----- What the writes do to the list -----

  ghost predicate SameHeader(m: seq<int>, m': seq<int>, a: nat) {
    && a + HEADER <= |m| == |m'|
    && m'[a] == m[a] && m'[a + SIZE] == m[a + SIZE] && m'[a + FREE] == m[a + FREE]
    && m'[a + NEXT] == m[a + NEXT] && m'[a + PREV] == m[a + PREV]
  }

  /** Splitting block k writes its header, a new one behind it, and the back link of the
      successor. */
  ghost predicate SplitWrites(m: seq<int>, m': seq<int>, bs: seq<Block>, k: nat, size: nat)
    requires k < |bs| && bs[k].size >= size + HEADER
  {
    var a := bs[k].addr;
    var n := a + HEADER + size;
    && |m'| == |m|
    && HeaderAt(m', a, size, false, n, PrevAddr(bs, k))
    && HeaderAt(m', n, bs[k].size - size - HEADER, true, NextAddr(bs, k), a)
    && (k + 1 < |bs| ==> bs[k + 1].addr + PREV < |m| && m'[bs[k + 1].addr + PREV] == n)
    && (forall x :: 0 <= x < |m| && !(a <= x < a + HEADER) && !(n <= x < n + HEADER) && x != BackLink(bs, k) ==>
          m'[x] == m[x])
  }

  /** The cell of the back link of the block behind block k. */
  ghost function BackLink(bs: seq<Block>, k: nat): int {
    if k + 1 < |bs| then bs[k + 1].addr + PREV else -1
  }

  /** A header outside the written cells is as it was. */
  lemma SplitOutside(m: seq<int>, m': seq<int>, bs: seq<Block>, base: nat, end: nat, k: nat, size: nat, i: nat)
    requires Laid(m, bs, base, end) && k < |bs| && bs[k].size >= size + HEADER + MIN_SPLIT
    requires SplitWrites(m, m', bs, k, size) && i < |bs| && i != k && i != k + 1
    ensures SameHeader(m, m', bs[i].addr)
  {
    Disjoint(bs, base, end, i, k);
    if k + 1 < |bs| { Disjoint(bs, base, end, i, k + 1); }
    assert Stored(m, bs, i);
  }

  lemma SplitStored(m: seq<int>, m': seq<int>, bs: seq<Block>, base: nat, end: nat, k: nat, size: nat, j: nat)
    requires Laid(m, bs, base, end) && k < |bs| && bs[k].free
    requires bs[k].size >= size + HEADER + MIN_SPLIT && SplitWrites(m, m', bs, k, size)
    requires j < |Taken(bs, k, size)|
    ensures Stored(m', Taken(bs, k, size), j)
  {
    hide Taken, Laid;
    SplitAt(bs, k, size);
    LaidAt(m, bs, base, end, k);
    if j < k {
      SplitOutside(m, m', bs, base, end, k, size, j);
      LaidAt(m, bs, base, end, j);
    } else if j > k + 2 {
      SplitOutside(m, m', bs, base, end, k, size, j - 1);
      LaidAt(m, bs, base, end, j - 1);
    } else if j == k + 2 {
      LaidAt(m, bs, base, end, k + 1);
    }
  }

  lemma LaidAt(m: seq<int>, bs: seq<Block>, base: nat, end: nat, k: nat)
    requires Laid(m, bs, base, end) && k < |bs|
    ensures Stored(m, bs, k) && Chained(bs, k, end)
  {
  }

  lemma SplitLaid(m: seq<int>, m': seq<int>, bs: seq<Block>, base: nat, end: nat, k: nat, size: nat)
    requires Laid(m, bs, base, end) && k < |bs| && bs[k].free
    requires bs[k].size >= size + HEADER + MIN_SPLIT && SplitWrites(m, m', bs, k, size)
    ensures Tiled(Taken(bs, k, size), base, end) ==> Laid(m', Taken(bs, k, size), base, end)
    ensures PayloadsKept(m, m', bs)
  {
    forall j | 0 <= j < |Taken(bs, k, size)| ensures Stored(m', Taken(bs, k, size), j) {
      SplitStored(m, m', bs, base, end, k, size, j);
    }
    hide Taken;
    forall b, x | b in bs && !b.free && PayloadStart(b) <= x < EndOf(b) && x < |m| ensures m'[x] == m[x] {
      var i :| 0 <= i < |bs| && bs[i] == b;
      Disjoint(bs, base, end, i, k);
      if k + 1 < |bs| && i != k + 1 { Disjoint(bs, base, end, i, k + 1); }
    }
  }

  /** Handing out block k whole. */
  lemma MarkLaid(m: seq<int>, m': seq<int>, bs: seq<Block>, base: nat, end: nat, k: nat, free: bool)
    requires Laid(m, bs, base, end) && k < |bs| && bs[k].addr + FREE < |m|
    requires m' == m[bs[k].addr + FREE := if free then 1 else 0]
    ensures Tiled(bs[k := bs[k].(free := free)], base, end) ==> Laid(m', bs[k := bs[k].(free := free)], base, end)
    ensures PayloadsKept(m, m', bs)
  {
    var r := bs[k := bs[k].(free := free)];
    assert Stored(m, bs, k);
    forall j | 0 <= j < |r| ensures Stored(m', r, j) {
      assert Stored(m, bs, j);
      if j != k {
        Disjoint(bs, base, end, j, k);
        assert SameHeader(m, m', bs[j].addr);
      }
    }
    forall b, x | b in bs && !b.free && PayloadStart(b) <= x < EndOf(b) && x < |m| ensures m'[x] == m[x] {
      var i :| 0 <= i < |bs| && bs[i] == b;
      if i != k { Disjoint(bs, base, end, i, k); }
    }
  }

  /** Merging block k with its successor: a size and two links. */
  lemma MergeLaid(m: seq<int>, m': seq<int>, bs: seq<Block>, base: nat, end: nat, k: nat)
    requires Laid(m, bs, base, end) && k + 1 < |bs| && bs[k].free && bs[k + 1].free && |m'| == |m|
    requires var a := bs[k].addr;
      && HeaderAt(m', a, bs[k].size + HEADER + bs[k + 1].size, true, NextAddr(bs, k + 1), PrevAddr(bs, k))
      && (k + 2 < |bs| ==> bs[k + 2].addr + PREV < |m| && m'[bs[k + 2].addr + PREV] == a)
      && (forall x :: 0 <= x < |m| && !(a <= x < a + HEADER) && x != BackLink(bs, k + 1) ==> m'[x] == m[x])
    ensures Laid(m', Merged(bs, k), base, end)
    ensures PayloadsKept(m, m', bs)
  {
    var r := Merged(bs, k);
    MergedTiled(bs, base, end, k);
    forall j | 0 <= j < |r| ensures Stored(m', r, j) {
      if j < k {
        Ordered(bs, base, end, j, k);
        if k + 2 < |bs| { Ordered(bs, base, end, j, k + 2); }
        assert Stored(m, bs, j) && SameHeader(m, m', bs[j].addr);
      } else if j > k {
        var i := j + 1;
        assert r[j] == bs[i];
        assert Stored(m, bs, i);
        Ordered(bs, base, end, k, i);
        if i > k + 2 {
          Ordered(bs, base, end, k + 2, i);
          assert SameHeader(m, m', bs[i].addr);
        }
      }
    }
    forall b, x | b in bs && !b.free && PayloadStart(b) <= x < EndOf(b) && x < |m| ensures m'[x] == m[x] {
      var i :| 0 <= i < |bs| && bs[i] == b;
      Disjoint(bs, base, end, i, k);
      if k + 2 < |bs| && i != k + 2 { Disjoint(bs, base, end, i, k + 2); }
    }
  }

  /** A link that is not zero leads to a header in memory. */
  lemma LinksInMemory(m: seq<int>, bs: seq<Block>, base: nat, end: nat, k: nat)
    requires Laid(m, bs, base, end) && k < |bs|
    ensures 0 < base <= bs[k].addr && EndOf(bs[k]) <= end <= |m|
    ensures NextAddr(bs, k) != 0 <==> k + 1 < |bs|
    ensures k + 1 < |bs| ==> EndOf(bs[k]) == bs[k + 1].addr && bs[k + 1].addr + HEADER <= |m|
  {
    InRegion(bs, base, end, k);
    if k + 1 < |bs| {
      InRegion(bs, base, end, k + 1);
      assert Chained(bs, k, end);
    }
  }

  lemma IndexUnique(bs: seq<Block>, base: nat, end: nat, k: nat, ptr: nat)
    requires Tiled(bs, base, end) && IsBlock(bs, k, ptr)
    ensures LivePtr(bs, ptr) && IndexOf(bs, ptr) == k
  {
    if IndexOf(bs, ptr) != k {
      Disjoint(bs, base, end, k, IndexOf(bs, ptr));
    }
  }

  class KernelHeap {
    var mem: array<int>
    var head: nat
    ghost var base: nat
    ghost var end: nat
    ghost var blocks: seq<Block>

    ghost predicate Valid()
      reads this, mem
    {
      && head == base
      && base % 16 == 0
      && HEADER <= base
      && end <= WORD
      && Laid(mem[..], blocks, base, end)
      && Coalesced(blocks)
    }

    /** heap_init. */
    constructor (memory: array<int>, start: nat, size: nat)
      requires HEADER <= start && HEADER <= size && AlignUp16(start) + size <= memory.Length <= WORD
      modifies memory
      ensures Valid() && mem == memory
      ensures base == AlignUp16(start) && end == base + size
      ensures blocks == Initial(base, end)
    {
      var a := AlignUp16(start);
      mem := memory;
      head := a;
      base, end := a, a + size;
      blocks := [Block(a, size - HEADER, true)];
      memory[a] := MAGIC;
      memory[a + SIZE] := size - HEADER;
      memory[a + FREE] := 1;
      memory[a + NEXT] := 0;
      memory[a + PREV] := 0;
      new;
      assert Stored(mem[..], blocks, 0);
    }

    method Kmalloc(size: nat) returns (ptr: nat)
      requires Valid() && size < WORD
      modifies mem, `blocks
      ensures Valid()
      ensures blocks == Step(old(blocks), Malloc(size))
      ensures var r := FirstFit(old(blocks), AlignUp8(size), 0);
              ptr == if size == 0 || r.None? then 0 else PayloadStart(old(blocks)[r.value])
      ensures ptr != 0 ==>
        && LivePtr(blocks, ptr)
        && var b := blocks[IndexOf(blocks, ptr)];
           b.addr + 20 == ptr && AlignUp8(size) <= b.size < AlignUp8(size) + 36
      ensures PayloadsKept(old(mem[..]), mem[..], old(blocks))
    {
      if size == 0 {
        return 0;
      }
      AlignUp8Mod(size);
      var curr, k := FindFit(AlignUp8(size));
      if curr == 0 {
        return 0;
      }
      ValidHeap();
      ServedExactly(blocks, base, end, size, k);
      Allocate(curr, AlignUp8(size), k);
      ptr := curr + HEADER;
      ValidHeap();
      hide Laid, Coalesced, Taken, FirstFit, AlignUp8, PayloadsKept;
      IndexUnique(blocks, base, end, k, ptr);
    }

    /** The walk of kmalloc along the list: the first block that fits, or zero. */
    method FindFit(need: nat) returns (curr: nat, ghost k: nat)
      requires Valid()
      ensures var r := FirstFit(blocks, need, 0);
              if r.Some? then curr == blocks[r.value].addr && k == r.value && curr != 0 else curr == 0
    {
      curr, k := head, 0;
      while curr != 0
        invariant 0 <= k <= |blocks|
        invariant curr == if k < |blocks| then blocks[k].addr else 0
        invariant FirstFit(blocks, need, 0) == FirstFit(blocks, need, k)
        decreases |blocks| - k
      {
        LinksInMemory(mem[..], blocks, base, end, k);
        assert Stored(mem[..], blocks, k);
        if mem[curr] != MAGIC {
          assert false;
        }
        if mem[curr + FREE] != 0 && mem[curr + SIZE] >= need {
          return;
        }
        curr := mem[curr + NEXT];
        k := k + 1;
      }
      assert k == |blocks| by {
        if k < |blocks| { LinksInMemory(mem[..], blocks, base, end, k); }
      }
    }

    /** The body of the loop in kmalloc once a block fits. */
    method Allocate(curr: nat, need: nat, ghost k: nat)
      requires Valid() && k < |blocks| && curr == blocks[k].addr && Fits(blocks[k], need) && need % 4 == 0
      modifies mem, `blocks
      ensures Valid()
      ensures blocks == Taken(old(blocks), k, need)
      ensures PayloadsKept(old(mem[..]), mem[..], old(blocks))
    {
      ghost var m := mem[..];
      ghost var bs := blocks;
      LinksInMemory(m, bs, base, end, k);
      assert Stored(m, bs, k);
      TakenOk(bs, base, end, k, need);
      if mem[curr + SIZE] >= need + HEADER + MIN_SPLIT {
        Split(curr, need, k);
        SplitLaid(m, mem[..], bs, base, end, k, need);
        blocks := Taken(bs, k, need);
      } else {
        mem[curr + FREE] := 0;
        MarkLaid(m, mem[..], bs, base, end, k, false);
        blocks := Taken(bs, k, need);
      }
    }

    method Split(curr: nat, need: nat, ghost k: nat)
      requires Valid() && k < |blocks| && curr == blocks[k].addr && blocks[k].free
      requires blocks[k].size >= need + HEADER + MIN_SPLIT
      modifies mem
      ensures SplitWrites(old(mem[..]), mem[..], blocks, k, need)
    {
      LinksInMemory(mem[..], blocks, base, end, k);
      assert Stored(mem[..], blocks, k);
      if k + 1 < |blocks| { LinksInMemory(mem[..], blocks, base, end, k + 1); }
      hide Laid, Coalesced;
      var n := curr + HEADER + need;
      var next := mem[curr + NEXT];
      WriteHeader(n, mem[curr + SIZE] - need - HEADER, true, next, curr);
      if next != 0 {
        mem[next + PREV] := n;
      }
      ghost var m := mem[..];
      assert HeaderAt(m, n, blocks[k].size - need - HEADER, true, NextAddr(blocks, k), curr);
      assert HeaderAt(m, curr, blocks[k].size, true, next, PrevAddr(blocks, k));
      Shrink(curr, need, n);
    }

    /** The block in front of a split. */
    method Shrink(curr: nat, need: nat, next: nat)
      requires curr + HEADER <= mem.Length
      modifies mem
      ensures mem[curr + NEXT] == next && mem[curr + SIZE] == need && mem[curr + FREE] == 0
      ensures forall x :: 0 <= x < mem.Length && x !in {curr + NEXT, curr + SIZE, curr + FREE} ==> mem[x] == old(mem[x])
    {
      mem[curr + NEXT] := next;
      mem[curr + SIZE] := need;
      mem[curr + FREE] := 0;
    }

    method WriteHeader(a: nat, size: nat, free: bool, next: nat, prev: nat)
      requires a + HEADER <= mem.Length
      modifies mem
      ensures HeaderAt(mem[..], a, size, free, next, prev)
      ensures forall x :: 0 <= x < mem.Length && !(a <= x < a + HEADER) ==> mem[x] == old(mem[x])
    {
      mem[a] := MAGIC;
      mem[a + SIZE] := size;
      mem[a + FREE] := if free then 1 else 0;
      mem[a + NEXT] := next;
      mem[a + PREV] := prev;
    }

    /** kfree of a pointer from kmalloc, or of one from kmalloc_aligned whose header
        position holds no stray magic word. */
    method Kfree(ptr: nat)
      requires Valid()
      requires ptr == 0 || LivePtr(blocks, ptr) || AlignedPtr(mem[..], blocks, ptr)
      modifies mem, `blocks
      ensures Valid()
      ensures blocks == if ptr == 0 then old(blocks)
                        else Step(old(blocks), Free(RawPtr(old(mem[..]), old(blocks), ptr)))
      ensures PayloadsKept(old(mem[..]), mem[..], blocks)
    {
      if ptr == 0 {
        return;
      }
      ghost var raw := RawPtr(mem[..], blocks, ptr);
      ghost var k := IndexOf(blocks, raw);
      LinksInMemory(mem[..], blocks, base, end, k);
      assert Stored(mem[..], blocks, k);
      var block := ptr - HEADER;
      if mem[block] != MAGIC {
        block := mem[ptr - 4] - HEADER;
      }
      Release(block, k);
    }

    method Release(block: nat, ghost k: nat)
      requires Valid() && k < |blocks| && !blocks[k].free && block == blocks[k].addr
      modifies mem, `blocks
      ensures Valid()
      ensures blocks == Freed(old(blocks), k)
      ensures PayloadsKept(old(mem[..]), mem[..], blocks)
    {
      ghost var m0 := mem[..];
      ghost var b0 := blocks;
      FreedOk(b0, base, end, k);
      FreedKeepsAddr(b0, k);
      MarkFree(block, k);
      ghost var m1, b1 := mem[..], blocks;
      MergeIfFree(block, k);
      ghost var m2, b2 := mem[..], blocks;
      KeptTrans(m0, m1, m2, b1, b2);
      hide Laid, PayloadsKept, Live, HeapOk;
      MergePrevIfFree(block, k);
      KeptTrans(m0, m2, mem[..], b2, blocks);
    }

    method MergePrevIfFree(block: nat, ghost k: nat)
      requires Laid(mem[..], blocks, base, end) && k < |blocks| && block == blocks[k].addr && blocks[k].free
      modifies mem, `blocks
      ensures Laid(mem[..], blocks, base, end)
      ensures blocks == MergedIf(old(blocks), k - 1)
      ensures Live(blocks) == Live(old(blocks))
      ensures PayloadsKept(old(mem[..]), mem[..], blocks)
    {
      LinksInMemory(mem[..], blocks, base, end, k);
      assert Stored(mem[..], blocks, k);
      if k > 0 { LinksInMemory(mem[..], blocks, base, end, k - 1); }
      var prev := mem[block + PREV];
      if prev != 0 {
        MergeIfFree(prev, k - 1);
      }
    }

    method MarkFree(block: nat, ghost k: nat)
      requires Valid() && k < |blocks| && block == blocks[k].addr
      modifies mem, `blocks
      ensures Laid(mem[..], blocks, base, end)
      ensures blocks == old(blocks)[k := old(blocks)[k].(free := true)]
      ensures PayloadsKept(old(mem[..]), mem[..], blocks)
    {
      ghost var m := mem[..];
      LinksInMemory(m, blocks, base, end, k);
      mem[block + FREE] := 1;
      ReleasedTiled(blocks, base, end, k);
      MarkLaid(m, mem[..], blocks, base, end, k, true);
      blocks := blocks[k := blocks[k].(free := true)];
    }

    /** Merge a free block with the block behind it if that is free too. */
    method MergeIfFree(a: nat, ghost k: nat)
      requires Laid(mem[..], blocks, base, end) && k < |blocks| && a == blocks[k].addr
      modifies mem, `blocks
      ensures Laid(mem[..], blocks, base, end)
      ensures blocks == MergedIf(old(blocks), k)
      ensures Live(blocks) == Live(old(blocks))
      ensures PayloadsKept(old(mem[..]), mem[..], blocks)
    {
      ghost var m := mem[..];
      ghost var bs := blocks;
      MergedIfLive(bs, k);
      LinksInMemory(m, bs, base, end, k);
      assert Stored(m, bs, k);
      var next := mem[a + NEXT];
      if next != 0 && mem[a + FREE] != 0 {
        assert Stored(m, bs, k + 1);
        if mem[next + FREE] != 0 {
          Absorb(a, next, k);
          MergeLaid(m, mem[..], bs, base, end, k);
          blocks := Merged(bs, k);
          KeptLive(m, mem[..], bs, blocks);
        }
      }
    }

    /** The writes of a merge: the size, the forward link and the back link behind. */
    method Absorb(a: nat, next: nat, ghost k: nat)
      requires Laid(mem[..], blocks, base, end) && k + 1 < |blocks| && a == blocks[k].addr && next == blocks[k + 1].addr
      requires blocks[k].free
      modifies mem
      ensures HeaderAt(mem[..], a, blocks[k].size + HEADER + blocks[k + 1].size, true, NextAddr(blocks, k + 1),
                       PrevAddr(blocks, k))
      ensures k + 2 < |blocks| ==> blocks[k + 2].addr + PREV < mem.Length && mem[blocks[k + 2].addr + PREV] == a
      ensures forall x :: 0 <= x < mem.Length && !(a <= x < a + HEADER) && x != BackLink(blocks, k + 1) ==>
        mem[x] == old(mem[x])
    {
      LinksInMemory(mem[..], blocks, base, end, k);
      LinksInMemory(mem[..], blocks, base, end, k + 1);
      assert Stored(mem[..], blocks, k) && Stored(mem[..], blocks, k + 1);
      if k + 2 < |blocks| { LinksInMemory(mem[..], blocks, base, end, k + 2); }
      hide Laid;
      mem[a + SIZE] := mem[a + SIZE] + HEADER + mem[next + SIZE];
      mem[a + NEXT] := mem[next + NEXT];
      var after := mem[a + NEXT];
      if after != 0 {
        mem[after + PREV] := a;
      }
    }

    // ----- kmalloc_aligned, krealloc -----

    /** An alignment of at most eight is that of kmalloc: for every power of two but eight the
        result is aligned, and for eight exactly if the header of its block is not. */
    method KmallocAligned(size: nat, alignment: nat) returns (ptr: nat)
      requires Valid() && size < WORD
      requires alignment > 8 ==> size + alignment + 4 <= WORD - 8
      modifies mem, `blocks
      ensures Valid()
      ensures alignment <= 8 ==>
        && blocks == Step(old(blocks), Malloc(size))
        && var r := FirstFit(old(blocks), AlignUp8(size), 0);
           && ptr == (if size == 0 || r.None? then 0 else PayloadStart(old(blocks)[r.value]))
           && (IsPow2(alignment) && ptr != 0 ==>
                 (ptr % alignment == 0 <==> alignment != 8 || old(blocks)[r.value].addr % 8 == 4))
      ensures IsPow2(alignment) && alignment != 8 ==> ptr % alignment == 0
      ensures alignment > 8 ==>
        && blocks == Step(old(blocks), Malloc(size + alignment + 4))
        && ((ptr == 0) <==> FirstFit(old(blocks), AlignUp8(size + alignment + 4), 0).None?)
        && (ptr != 0 ==>
          && 4 <= ptr < mem.Length
          && mem[ptr - 4] >= 0
          && ptr == AlignUp(mem[ptr - 4] + 4, alignment)
          && LivePtr(blocks, mem[ptr - 4])
          && mem[ptr - 4] <= ptr - 4
          && ptr + size <= EndOf(blocks[IndexOf(blocks, mem[ptr - 4])]))
      ensures PayloadsKept(old(mem[..]), mem[..], old(blocks))
    {
      hide Step, AlignUp8, Laid, Coalesced, PayloadsKept, Tiled, AlignUp;
      ValidHeap();
      if alignment <= 8 {
        ghost var r := FirstFit(blocks, AlignUp8(size), 0);
        if IsPow2(alignment) && r.Some? {
          PayloadAlignment(blocks, base, end, r.value, alignment);
        }
        ptr := Kmalloc(size);
      } else {
        ptr := AllocateAligned(size, alignment);
        if ptr != 0 { AlignUpBounds(mem[ptr - 4] + 4, alignment); }
      }
    }

    /** The result lies with all its bytes, and the slot below it, inside the raw block. */
    method AllocateAligned(size: nat, alignment: nat) returns (ptr: nat)
      requires Valid() && alignment > 8
      requires size + alignment + 4 <= WORD - 8
      modifies mem, `blocks
      ensures Valid()
      ensures blocks == Step(old(blocks), Malloc(size + alignment + 4))
      ensures (ptr == 0) <==> FirstFit(old(blocks), AlignUp8(size + alignment + 4), 0).None?
      ensures ptr != 0 ==>
        && 4 <= ptr < mem.Length
        && mem[ptr - 4] >= 0
        && ptr == AlignUp(mem[ptr - 4] + 4, alignment)
        && LivePtr(blocks, mem[ptr - 4])
        && mem[ptr - 4] <= ptr - 4
        && ptr + size <= EndOf(blocks[IndexOf(blocks, mem[ptr - 4])])
      ensures PayloadsKept(old(mem[..]), mem[..], old(blocks))
    {
      hide Laid, Taken, Live, Coalesced, AlignUp8, FirstFit, AlignUp, PayloadsKept;
      var total := size + alignment + 4;
      ValidHeap();
      MallocServes(blocks, base, end, total);
      var raw := Kmalloc(total);
      if raw == 0 {
        return 0;
      }
      ghost var k := FirstFit(old(blocks), AlignUp8(total), 0).value;
      AlignUp8Mod(total);
      TakenLive(old(blocks), base, end, k, AlignUp8(total));
      TakenIndex(old(blocks), k, AlignUp8(total));
      ValidHeap();
      assert IsBlock(blocks, k, raw);
      ghost var m := mem[..];
      ptr := PlaceSlot(raw, size, alignment, k);
      IndexUnique(blocks, base, end, k, raw);
      FreshPayload(old(mem[..]), m, mem[..], old(blocks), blocks, base, end, k);
    }

    /** Store the raw pointer in the word below the first aligned address behind it. */
    method PlaceSlot(raw: nat, size: nat, alignment: nat, ghost k: nat) returns (ptr: nat)
      requires Valid() && alignment > 8 && IsBlock(blocks, k, raw) && blocks[k].size >= size + alignment + 4
      modifies mem
      ensures Valid()
      ensures raw + 4 <= ptr && ptr + size <= EndOf(blocks[k]) && ptr < mem.Length
      ensures mem[ptr - 4] == raw && ptr == AlignUp(raw + 4, alignment)
      ensures forall x :: 0 <= x < mem.Length && !(PayloadStart(blocks[k]) <= x < EndOf(blocks[k])) ==>
        mem[x] == old(mem[x])
    {
      ghost var m := mem[..];
      LinksInMemory(m, blocks, base, end, k);
      AlignUpBounds(raw + 4, alignment);
      ptr := AlignUp(raw + 4, alignment);
      hide AlignUp;
      mem[ptr - 4] := raw;
      PayloadWriteLaid(m, mem[..], blocks, base, end, k);
    }

    /** Null, shrinking and growing; a pointer from kmalloc_aligned is refused. */
    method Krealloc(ptr: nat, size: nat) returns (r: nat)
      requires Valid() && (ptr == 0 || LivePtr(blocks, ptr) || AlignedPtr(mem[..], blocks, ptr)) && size <= WORD - 8
      modifies mem, `blocks
      ensures Valid()
      ensures ptr == 0 ==>
        && blocks == Step(old(blocks), Malloc(size))
        && var f := FirstFit(old(blocks), AlignUp8(size), 0);
           r == if size == 0 || f.None? then 0 else PayloadStart(old(blocks)[f.value])
      ensures ptr != 0 && size == 0 ==>
        r == 0 && blocks == Step(old(blocks), Free(RawPtr(old(mem[..]), old(blocks), ptr)))
      ensures ptr != 0 && size > 0 && !LivePtr(old(blocks), ptr) ==>
        r == 0 && blocks == old(blocks) && mem[..] == old(mem[..])
      ensures ptr != 0 && LivePtr(old(blocks), ptr) && old(blocks)[IndexOf(old(blocks), ptr)].size < size ==>
        (r == 0 <==> FirstFit(old(blocks), AlignUp8(size), 0).None?)
      ensures ptr != 0 && size > 0 && LivePtr(old(blocks), ptr) ==>
        var b := old(blocks)[IndexOf(old(blocks), ptr)];
        if b.size >= size then r == ptr && blocks == old(blocks) && mem[..] == old(mem[..])
        else if r == 0 then blocks == old(blocks) && LiveKept(old(mem[..]), mem[..], Live(blocks))
        else && LiveKept(old(mem[..]), mem[..], Live(old(blocks)) - {b})
             && Moved(old(mem[..]), mem[..], ptr, r, b.size)
             && exists n: Block ::
                  && n !in Live(old(blocks)) && PayloadStart(n) == r && size <= n.size
                  && Live(blocks) == Live(old(blocks)) - {b} + {n}
    {
      if ptr == 0 {
        r := Kmalloc(size);
        return;
      }
      if size == 0 {
        Kfree(ptr);
        return 0;
      }
      hide Laid, Coalesced, PayloadsKept, LiveKept, Moved, Freed, Taken, Live, LivePtr;
      HeaderOf(mem[..], blocks, base, end, ptr);
      var block := ptr - HEADER;
      if mem[block] != MAGIC {
        return 0;
      }
      ghost var k := IndexOf(blocks, ptr);
      if mem[block + SIZE] >= size {
        return ptr;
      }
      ghost var n;
      r, n := Move(ptr, mem[block + SIZE], size, blocks[k]);
    }

    lemma ValidHeap()
      requires Valid()
      ensures HeapOk(blocks, base, end) && Tiled(blocks, base, end) && end <= mem.Length && 0 < base
    {
    }

    /** Allocate, copy, free: the contents travel, and the other blocks stay. */
    method Move(ptr: nat, oldSize: nat, size: nat, ghost b: Block) returns (r: nat, ghost n: Block)
      requires Valid() && b in Live(blocks) && PayloadStart(b) == ptr && b.size == oldSize < size <= WORD - 8
      modifies mem, `blocks
      ensures Valid()
      ensures r == 0 <==> FirstFit(old(blocks), AlignUp8(size), 0).None?
      ensures r == 0 ==> blocks == old(blocks) && LiveKept(old(mem[..]), mem[..], Live(blocks))
      ensures r != 0 ==>
        && n !in Live(old(blocks)) && PayloadStart(n) == r && size <= n.size
        && Live(blocks) == Live(old(blocks)) - {b} + {n}
        && Moved(old(mem[..]), mem[..], ptr, r, oldSize)
        && LiveKept(old(mem[..]), mem[..], Live(old(blocks)) - {b})
    {
      hide Laid, Coalesced, Live, Freed, Taken, PayloadsKept, LiveKept, Moved, FirstFit, AlignUp8;
      ghost var m0, b0 := mem[..], blocks;
      r, n := Clone(ptr, oldSize, size, b);
      if r == 0 {
        return;
      }
      ghost var m, bs := mem[..], blocks;
      ValidHeap();
      BlockIndex(bs, base, end, b);
      LiveIsPtr(m, bs, ptr);
      Kfree(ptr);
      FreedLive(bs, base, end, IndexOf(bs, ptr));
      ValidHeap();
      KeptLiveSet(m, mem[..], blocks);
      BlockIndex(blocks, base, end, n);
      MoveKept(m0, m, mem[..], Live(b0), b, n, ptr, r, oldSize);
    }

    /** A fresh block n that begins with a copy of block b, which is still there. */
    method Clone(ptr: nat, oldSize: nat, size: nat, ghost b: Block) returns (r: nat, ghost n: Block)
      requires Valid() && b in Live(blocks) && PayloadStart(b) == ptr && b.size == oldSize < size <= WORD - 8
      modifies mem, `blocks
      ensures Valid()
      ensures LiveKept(old(mem[..]), mem[..], Live(old(blocks)))
      ensures r == 0 <==> FirstFit(old(blocks), AlignUp8(size), 0).None?
      ensures r == 0 ==> blocks == old(blocks)
      ensures r != 0 ==>
        && n !in Live(old(blocks)) && Live(blocks) == Live(old(blocks)) + {n}
        && PayloadStart(n) == r && size <= n.size
        && Moved(old(mem[..]), mem[..], ptr, r, oldSize)
    {
      hide Laid, Coalesced, Live, Freed, Taken, PayloadsKept, LiveKept, Moved, FirstFit, AlignUp8;
      ghost var b0, m0 := blocks, mem[..];
      n := b;
      ValidHeap();
      MallocServes(b0, base, end, size);
      r := Kmalloc(size);
      KeptLiveSet(m0, mem[..], b0);
      if r == 0 {
        return;
      }
      ghost var k := FirstFit(b0, AlignUp8(size), 0).value;
      AlignUp8Mod(size);
      TakenLive(b0, base, end, k, AlignUp8(size));
      ghost var b1, m1 := blocks, mem[..];
      ValidHeap();
      TakenIndex(b0, k, AlignUp8(size));
      n := b1[k];
      LiveDisjoint(b1, base, end, b, n);
      BlockIndex(b1, base, end, b);
      BlockIndex(b1, base, end, n);
      KeptAt(m0, m1, b0, b, ptr, oldSize);
      CopyCells(r, ptr, oldSize);
      PayloadWriteLaid(m1, mem[..], b1, base, end, k);
      FreshPayload(m0, m1, mem[..], b0, b1, base, end, k);
      KeptLiveSet(m0, mem[..], b0);
      MovedVia(m0, m1, mem[..], ptr, r, oldSize);
    }

    /** memcpy between ranges that do not overlap. */
    method CopyCells(dst: nat, src: nat, n: nat)
      requires dst + n <= mem.Length && src + n <= mem.Length && (dst + n <= src || src + n <= dst)
      modifies mem
      ensures Moved(old(mem[..]), mem[..], src, dst, n)
      ensures forall x :: 0 <= x < mem.Length && !(dst <= x < dst + n) ==> mem[x] == old(mem[x])
    {
      var i := 0;
      while i < n
        invariant 0 <= i <= n
        invariant mem[dst..dst + i] == old(mem[src..src + i])
        invariant forall x :: 0 <= x < mem.Length && !(dst <= x < dst + i) ==> mem[x] == old(mem[x])
      {
        mem[dst + i] := mem[src + i];
        i := i + 1;
      }
    }

    // ----- heap_stats -----

    method HeapStats() returns (used: nat, free: nat)
      requires Valid()
      ensures used == Sum(blocks, false) && free == Sum(blocks, true)
      ensures used + free + HEADER * |blocks| == end - base
    {
      used, free := 0, 0;
      var curr := head;
      ghost var k := 0;
      while curr != 0
        invariant 0 <= k <= |blocks|
        invariant curr == if k < |blocks| then blocks[k].addr else 0
        invariant used == Sum(blocks[..k], false) && free == Sum(blocks[..k], true)
        decreases |blocks| - k
      {
        LinksInMemory(mem[..], blocks, base, end, k);
        assert Stored(mem[..], blocks, k);
        assert blocks[..k + 1][..k] == blocks[..k];
        if mem[curr] == MAGIC {
          if mem[curr + FREE] != 0 {
            free := free + mem[curr + SIZE];
          } else {
            used := used + mem[curr + SIZE];
          }
        }
        curr := mem[curr + NEXT];
        k := k + 1;
      }
      assert k == |blocks| by {
        if k < |blocks| { LinksInMemory(mem[..], blocks, base, end, k); }
      }
      assert blocks[..k] == blocks;
      BytesConserved(blocks, base, end);
    }
  }

  lemma FreedKeepsAddr(bs: seq<Block>, k: nat)
    requires k < |bs|
    ensures var r := MergedIf(bs[k := bs[k].(free := true)], k); k < |r| && r[k].addr == bs[k].addr && r[k].free
  {
  }

  lemma KeptLive(m: seq<int>, m': seq<int>, bs: seq<Block>, bs': seq<Block>)
    requires PayloadsKept(m, m', bs) && Live(bs') == Live(bs)
    ensures PayloadsKept(m, m', bs')
  {
    forall b, x | b in bs' && !b.free && PayloadStart(b) <= x < EndOf(b) && x < |m| ensures m'[x] == m[x] {
      assert b in Live(bs') && b in Live(bs);
    }
  }

  lemma KeptTrans(m0: seq<int>, m1: seq<int>, m2: seq<int>, b1: seq<Block>, b2: seq<Block>)
    requires PayloadsKept(m0, m1, b1) && PayloadsKept(m1, m2, b2) && Live(b2) == Live(b1)
    ensures PayloadsKept(m0, m2, b2)
  {
    KeptLive(m0, m1, b1, b2);
  }

  /** n cells have travelled from src to dst. */
  ghost predicate Moved(m: seq<int>, m': seq<int>, src: nat, dst: nat, n: nat) {
    && src + n <= |m|
    && dst + n <= |m'|
    && m'[dst..dst + n] == m[src..src + n]
  }

  /** No payload cell of these blocks differs. */
  ghost predicate LiveKept(m: seq<int>, m': seq<int>, s: set<Block>) {
    && |m'| == |m|
    && (forall b, x :: b in s && PayloadStart(b) <= x < EndOf(b) && x < |m| ==> m'[x] == m[x])
  }

  lemma KeptLiveSet(m: seq<int>, m': seq<int>, bs: seq<Block>)
    requires PayloadsKept(m, m', bs)
    ensures LiveKept(m, m', Live(bs))
  {
  }

  lemma MovedVia(m0: seq<int>, m1: seq<int>, m2: seq<int>, src: nat, dst: nat, n: nat)
    requires src + n <= |m0| == |m1| && m1[src..src + n] == m0[src..src + n] && Moved(m1, m2, src, dst, n)
    ensures Moved(m0, m2, src, dst, n)
  {
  }

  /** First the copy, then the release of the original. */
  lemma MoveKept(m0: seq<int>, m1: seq<int>, m2: seq<int>, live: set<Block>, b: Block, n: Block,
                 src: nat, dst: nat, size: nat)
    requires LiveKept(m0, m1, live) && LiveKept(m1, m2, live + {n} - {b})
    requires n != b && PayloadStart(n) == dst && size <= n.size && EndOf(n) <= |m1| && Moved(m0, m1, src, dst, size)
    ensures LiveKept(m0, m2, live - {b}) && Moved(m0, m2, src, dst, size)
  {
    assert n in live + {n} - {b};
    assert m2[dst..dst + size] == m1[dst..dst + size];
    forall c, x | c in live - {b} && PayloadStart(c) <= x < EndOf(c) && x < |m0| ensures m2[x] == m0[x] {
      assert c in live + {n} - {b};
    }
  }

  /** What the words in front of a pointer say about it. */
  lemma HeaderOf(m: seq<int>, bs: seq<Block>, base: nat, end: nat, ptr: nat)
    requires Laid(m, bs, base, end) && (LivePtr(bs, ptr) || AlignedPtr(m, bs, ptr))
    ensures HEADER <= ptr <= |m| && (LivePtr(bs, ptr) <==> m[ptr - HEADER] == MAGIC)
    ensures LivePtr(bs, ptr) ==>
      var b := bs[IndexOf(bs, ptr)]; m[ptr - HEADER + SIZE] == b.size && b in Live(bs) && PayloadStart(b) == ptr
  {
    if LivePtr(bs, ptr) {
      var k := IndexOf(bs, ptr);
      LinksInMemory(m, bs, base, end, k);
      assert Stored(m, bs, k);
    }
  }

  lemma LiveIsPtr(m: seq<int>, bs: seq<Block>, ptr: nat)
    requires LivePtr(bs, ptr)
    ensures RawPtr(m, bs, ptr) == ptr
  {
  }

  lemma TakenIndex(bs: seq<Block>, k: nat, size: nat)
    requires k < |bs| && size <= bs[k].size
    ensures k < |Taken(bs, k, size)|
  {
  }

  /** Writing inside the payload of block k disturbs no header. */
  lemma PayloadWriteLaid(m: seq<int>, m': seq<int>, bs: seq<Block>, base: nat, end: nat, k: nat)
    requires Laid(m, bs, base, end) && k < |bs| && |m'| == |m|
    requires forall x :: 0 <= x < |m| && !(PayloadStart(bs[k]) <= x < EndOf(bs[k])) ==> m'[x] == m[x]
    ensures Laid(m', bs, base, end)
  {
    forall j | 0 <= j < |bs| ensures Stored(m', bs, j) {
      assert Stored(m, bs, j);
      if j != k { Disjoint(bs, base, end, j, k); }
      assert SameHeader(m, m', bs[j].addr);
    }
  }

  /** The payload of a fresh block is nobody else's. */
  lemma FreshPayload(m0: seq<int>, m1: seq<int>, m2: seq<int>, b0: seq<Block>, b1: seq<Block>,
                     base: nat, end: nat, k: nat)
    requires PayloadsKept(m0, m1, b0) && |m2| == |m1| && Tiled(b1, base, end) && k < |b1|
    requires Live(b0) <= Live(b1) && b1[k] !in Live(b0)
    requires forall x :: 0 <= x < |m1| && !(PayloadStart(b1[k]) <= x < EndOf(b1[k])) ==> m2[x] == m1[x]
    ensures PayloadsKept(m0, m2, b0)
  {
    forall b, x | b in b0 && !b.free && PayloadStart(b) <= x < EndOf(b) && x < |m0| ensures m2[x] == m0[x] {
      assert b in Live(b0) && b in Live(b1);
      var j :| 0 <= j < |b1| && b1[j] == b;
      Disjoint(b1, base, end, j, k);
    }
  }

  lemma KeptAt(m: seq<int>, m': seq<int>, bs: seq<Block>, b: Block, ptr: nat, n: nat)
    requires PayloadsKept(m, m', bs) && b in Live(bs) && ptr == PayloadStart(b) && n <= b.size && EndOf(b) <= |m|
    ensures m'[ptr..ptr + n] == m[ptr..ptr + n]
  {
  }

  lemma LiveDisjoint(bs: seq<Block>, base: nat, end: nat, b: Block, c: Block)
    requires Tiled(bs, base, end) && b in Live(bs) && c in Live(bs) && b != c
    ensures EndOf(b) <= c.addr || EndOf(c) <= b.addr
  {
    var i :| 0 <= i < |bs| && bs[i] == b;
    var j :| 0 <= j < |bs| && bs[j] == c;
    Disjoint(bs, base, end, i, j);
  }

  lemma BlockIndex(bs: seq<Block>, base: nat, end: nat, b: Block)
    requires Tiled(bs, base, end) && b in Live(bs)
    ensures LivePtr(bs, PayloadStart(b)) && bs[IndexOf(bs, PayloadStart(b))] == b
    ensures base <= b.addr && EndOf(b) <= end
  {
    var i :| 0 <= i < |bs| && bs[i] == b;
    assert IsBlock(bs, i, PayloadStart(b));
    IndexUnique(bs, base, end, i, PayloadStart(b));
    InRegion(bs, base, end, i);
  }

  /** A pointer from kmalloc_aligned: no magic word where a header would be, and the raw
      pointer in the slot below it. */
  ghost predicate AlignedPtr(m: seq<int>, bs: seq<Block>, ptr: nat) {
    && HEADER <= ptr < |m|
    && m[ptr - HEADER] != MAGIC
    && m[ptr - 4] >= 0
    && LivePtr(bs, m[ptr - 4])
  }

  ghost function RawPtr(m: seq<int>, bs: seq<Block>, ptr: nat): (raw: nat)
    requires LivePtr(bs, ptr) || AlignedPtr(m, bs, ptr)
    ensures LivePtr(bs, raw)
  {
    if LivePtr(bs, ptr) then ptr else m[ptr - 4]
  }
}
