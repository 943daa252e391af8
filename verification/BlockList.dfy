/**
  The heap as a list of blocks that tile a region: what kmalloc and kfree do to the
  list, and what every sequence of them keeps.
 */
module BlockList {
  import opened Prelude

  const HEADER := 20
  const MIN_SPLIT := 16
  const WORD := 0x1_0000_0000

  datatype Block = Block(addr: nat, size: nat, free: bool)

  ghost function EndOf(b: Block): nat { b.addr + HEADER + b.size }

  ghost predicate Chained(bs: seq<Block>, i: nat, end: nat)
    requires i < |bs|
  {
    EndOf(bs[i]) == if i + 1 < |bs| then bs[i + 1].addr else end
  }

  /** The blocks cover [base, end) without gap or overlap.  Sizes are multiples of 4
      except in the last block, so every header is on a word boundary. */
  ghost predicate Tiled(bs: seq<Block>, base: nat, end: nat) {
    && bs != []
    && bs[0].addr == base
    && (forall i :: 0 <= i < |bs| ==> Chained(bs, i, end))
    && (forall i :: 0 <= i < |bs| - 1 ==> bs[i].size % 4 == 0)
  }

  ghost predicate Coalesced(bs: seq<Block>) {
    forall i :: 0 <= i < |bs| - 1 ==> !(bs[i].free && bs[i + 1].free)
  }

  ghost predicate HeapOk(bs: seq<Block>, base: nat, end: nat) {
    Tiled(bs, base, end) && Coalesced(bs)
  }

  ghost function Initial(base: nat, end: nat): seq<Block>
    requires base + HEADER <= end
  {
    [Block(base, end - base - HEADER, true)]
  }

  // ----- kmalloc -----

  /** ALIGN_UP(size, 8) on 32 bits. */
  function AlignUp8(size: nat): nat { (size + 7) % WORD / 8 * 8 }

  predicate Fits(b: Block, size: nat) { b.free && b.size >= size }

  /** The first block that fits, from index i on. */
  function FirstFit(bs: seq<Block>, size: nat, i: nat): (r: Option<nat>)
    requires i <= |bs|
    ensures r.Some? ==> i <= r.value < |bs| && Fits(bs[r.value], size)
    ensures forall j :: i <= j < (if r.Some? then r.value else |bs|) ==> !Fits(bs[j], size)
    decreases |bs| - i
  {
    if i == |bs| then None else if Fits(bs[i], size) then Some(i) else FirstFit(bs, size, i + 1)
  }

  /** Block k is handed out; what it has left over becomes a free block if it is worth one. */
  function Taken(bs: seq<Block>, k: nat, size: nat): (r: seq<Block>)
    requires k < |bs| && size <= bs[k].size
  {
    var b := bs[k];
    if b.size >= size + HEADER + MIN_SPLIT then
      bs[..k] + [Block(b.addr, size, false), Block(b.addr + HEADER + size, b.size - size - HEADER, true)] + bs[k + 1..]
    else
      bs[k := b.(free := false)]
  }

  /** The list after a split, index by index. */
  lemma SplitAt(bs: seq<Block>, k: nat, size: nat)
    requires k < |bs| && bs[k].size >= size + HEADER + MIN_SPLIT
    ensures var r := Taken(bs, k, size); var a := bs[k].addr;
      && |r| == |bs| + 1
      && (forall j :: 0 <= j < k ==> r[j] == bs[j])
      && r[k] == Block(a, size, false)
      && r[k + 1] == Block(a + HEADER + size, bs[k].size - size - HEADER, true)
      && (forall j :: k + 1 < j < |r| ==> r[j] == bs[j - 1])
  {
  }

  // ----- kfree -----

  function Merged(bs: seq<Block>, k: nat): (r: seq<Block>)
    requires k + 1 < |bs|
  {
    bs[..k] + [bs[k].(size := bs[k].size + HEADER + bs[k + 1].size)] + bs[k + 2..]
  }

  function MergedIf(bs: seq<Block>, k: int): (r: seq<Block>) {
    if 0 <= k && k + 1 < |bs| && bs[k].free && bs[k + 1].free then Merged(bs, k) else bs
  }

  /** Block k is released and coalesced with its successor, then with its predecessor. */
  function Freed(bs: seq<Block>, k: nat): (r: seq<Block>)
    requires k < |bs|
  {
    MergedIf(MergedIf(bs[k := bs[k].(free := true)], k), k - 1)
  }

  // ----- Order -----

  /** Blocks lie in address order, each one behind the end of all before it. */
  lemma {:induction false} Ordered(bs: seq<Block>, base: nat, end: nat, i: nat, j: nat)
    requires Tiled(bs, base, end) && i < j < |bs|
    ensures EndOf(bs[i]) <= bs[j].addr
    decreases j - i
  {
    assert Chained(bs, i, end);
    if i + 1 < j {
      Ordered(bs, base, end, i + 1, j);
    }
  }

  lemma {:induction false} InRegion(bs: seq<Block>, base: nat, end: nat, i: nat)
    requires Tiled(bs, base, end) && i < |bs|
    ensures base <= bs[i].addr && EndOf(bs[i]) <= end
    ensures bs[i].addr % 4 == base % 4
  {
    if i + 1 < |bs| {
      Ordered(bs, base, end, i, |bs| - 1);
    }
    assert Chained(bs, |bs| - 1, end);
    WordAligned(bs, base, end, i);
  }

  lemma {:induction false} WordAligned(bs: seq<Block>, base: nat, end: nat, i: nat)
    requires Tiled(bs, base, end) && i < |bs|
    ensures base <= bs[i].addr && bs[i].addr % 4 == base % 4
  {
    if i > 0 {
      WordAligned(bs, base, end, i - 1);
      assert Chained(bs, i - 1, end);
    }
  }

  // ----- Every operation keeps the heap well formed -----

  lemma TakenOk(bs: seq<Block>, base: nat, end: nat, k: nat, size: nat)
    requires HeapOk(bs, base, end) && k < |bs| && Fits(bs[k], size) && size % 4 == 0
    ensures HeapOk(Taken(bs, k, size), base, end)
  {
    var r := Taken(bs, k, size);
    if bs[k].size >= size + HEADER + MIN_SPLIT {
      forall i | 0 <= i < |r|
        ensures Chained(r, i, end) && (i + 1 < |r| ==> r[i].size % 4 == 0 && !(r[i].free && r[i + 1].free))
      {
        if i > 0 { assert Chained(bs, if i > k then i - 1 else i, end); } else { assert Chained(bs, 0, end); }
      }
    } else {
      forall i | 0 <= i < |r| ensures Chained(r, i, end) {
        assert Chained(bs, i, end);
      }
    }
  }

  /** The list after a merge, index by index. */
  lemma MergeAt(bs: seq<Block>, k: nat)
    requires k + 1 < |bs|
    ensures var r := Merged(bs, k);
      && |r| == |bs| - 1
      && (forall j :: 0 <= j < k ==> r[j] == bs[j])
      && r[k] == bs[k].(size := bs[k].size + HEADER + bs[k + 1].size)
      && (forall j :: k < j < |r| ==> r[j] == bs[j + 1])
  {
  }

  lemma TiledAt(bs: seq<Block>, base: nat, end: nat, i: nat)
    requires Tiled(bs, base, end) && i < |bs|
    ensures Chained(bs, i, end) && (i + 1 < |bs| ==> bs[i].size % 4 == 0)
  {
  }

  lemma MergedTiled(bs: seq<Block>, base: nat, end: nat, k: nat)
    requires Tiled(bs, base, end) && k + 1 < |bs|
    ensures Tiled(Merged(bs, k), base, end)
  {
    hide Merged;
    var r := Merged(bs, k);
    MergeAt(bs, k);
    forall i | 0 <= i < |r| ensures Chained(r, i, end) && (i + 1 < |r| ==> r[i].size % 4 == 0) {
      MergedAt(bs, base, end, k, i);
    }
  }

  lemma MergedAt(bs: seq<Block>, base: nat, end: nat, k: nat, i: nat)
    requires Tiled(bs, base, end) && k + 1 < |bs| && i + 1 < |bs|
    ensures var r := Merged(bs, k);
      |r| == |bs| - 1 && Chained(r, i, end) && (i + 1 < |r| ==> r[i].size % 4 == 0)
  {
    hide Merged, Tiled;
    MergeAt(bs, k);
    if i <= k { TiledAt(bs, base, end, i); }
    if i >= k { TiledAt(bs, base, end, i + 1); }
  }

  lemma FreedOk(bs: seq<Block>, base: nat, end: nat, k: nat)
    requires HeapOk(bs, base, end) && k < |bs|
    ensures HeapOk(Freed(bs, k), base, end)
  {
    hide Tiled, MergedIf, Coalesced;
    var b1 := bs[k := bs[k].(free := true)];
    ReleasedTiled(bs, base, end, k);
    MergedIfTiled(b1, base, end, k);
    MergedIfTiled(MergedIf(b1, k), base, end, k - 1);
    FreedCoalesced(bs, k);
  }

  lemma ReleasedTiled(bs: seq<Block>, base: nat, end: nat, k: nat)
    requires Tiled(bs, base, end) && k < |bs|
    ensures Tiled(bs[k := bs[k].(free := true)], base, end)
  {
    var r := bs[k := bs[k].(free := true)];
    forall i | 0 <= i < |r| ensures Chained(r, i, end) { assert Chained(bs, i, end); }
  }

  lemma MergedIfTiled(bs: seq<Block>, base: nat, end: nat, k: int)
    requires Tiled(bs, base, end)
    ensures Tiled(MergedIf(bs, k), base, end)
  {
    hide Tiled, Merged;
    if 0 <= k && k + 1 < |bs| { MergedTiled(bs, base, end, k); }
  }

  /** After both merges no two free blocks are neighbours. */
  lemma FreedCoalesced(bs: seq<Block>, k: nat)
    requires Coalesced(bs) && k < |bs|
    ensures Coalesced(Freed(bs, k))
  {
    hide Merged;
    var b1 := bs[k := bs[k].(free := true)];
    var b2 := MergedIf(b1, k);
    if k + 1 < |b1| { MergeAt(b1, k); }
    assert forall i :: 0 <= i < |b2| - 1 && i + 1 != k ==> !(b2[i].free && b2[i + 1].free);
    if 1 <= k && k < |b2| { MergeAt(b2, k - 1); }
  }

  // ----- Live blocks -----

  ghost function Live(bs: seq<Block>): set<Block> {
    set b | b in bs && !b.free
  }

  ghost function PayloadStart(b: Block): nat { b.addr + HEADER }

  /** Two blocks share no byte, header or payload. */
  lemma Disjoint(bs: seq<Block>, base: nat, end: nat, i: nat, j: nat)
    requires Tiled(bs, base, end) && i < |bs| && j < |bs| && i != j
    ensures EndOf(bs[i]) <= bs[j].addr || EndOf(bs[j]) <= bs[i].addr
  {
    Ordered(bs, base, end, if i < j then i else j, if i < j then j else i);
  }

  /** kmalloc adds one live block and leaves the others as they are. */
  lemma TakenLive(bs: seq<Block>, base: nat, end: nat, k: nat, size: nat)
    requires HeapOk(bs, base, end) && k < |bs| && Fits(bs[k], size) && size % 4 == 0
    ensures var r := Taken(bs, k, size);
            && !r[k].free && r[k].addr == bs[k].addr && r[k].size >= size
            && r[k] !in Live(bs)
            && Live(r) == Live(bs) + {r[k]}
  {
    var r := Taken(bs, k, size);
    forall j | 0 <= j < |bs| && j != k ensures bs[j].addr != bs[k].addr { Disjoint(bs, base, end, j, k); }
    forall b ensures b in Live(r) <==> b in Live(bs) + {r[k]} {
      if b in Live(bs) {
        var j :| 0 <= j < |bs| && bs[j] == b;
        assert r[if j <= k || |r| == |bs| then j else j + 1] == b;
      }
      if b in Live(r) && b != r[k] {
        var j :| 0 <= j < |r| && r[j] == b;
        assert bs[if j <= k || |r| == |bs| then j else j - 1] == b;
      }
    }
  }

  lemma MergedIfLive(bs: seq<Block>, k: int)
    ensures Live(MergedIf(bs, k)) == Live(bs)
  {
    var r := MergedIf(bs, k);
    if r != bs {
      forall b ensures b in Live(r) <==> b in Live(bs) {
        if b in Live(bs) {
          var j :| 0 <= j < |bs| && bs[j] == b;
          assert r[if j < k then j else j - 1] == b;
        }
        if b in Live(r) {
          var j :| 0 <= j < |r| && r[j] == b;
          assert bs[if j < k then j else j + 1] == b;
        }
      }
    }
  }

  /** kfree removes one live block and leaves the others as they are. */
  lemma FreedLive(bs: seq<Block>, base: nat, end: nat, k: nat)
    requires HeapOk(bs, base, end) && k < |bs|
    ensures Live(Freed(bs, k)) == Live(bs) - {bs[k]}
  {
    var b1 := bs[k := bs[k].(free := true)];
    forall b ensures b in Live(b1) <==> b in Live(bs) - {bs[k]} {
      if b in Live(bs) - {bs[k]} {
        var j :| 0 <= j < |bs| && bs[j] == b;
        assert b1[j] == b;
      }
      if b in Live(b1) {
        var j :| 0 <= j < |b1| && b1[j] == b;
        assert bs[j] == b;
        Disjoint(bs, base, end, j, k);
      }
    }
    MergedIfLive(b1, k);
    MergedIfLive(MergedIf(b1, k), k - 1);
  }

  /** Freeing what was just allocated restores the list exactly. */
  lemma FreeUndoesMalloc(bs: seq<Block>, base: nat, end: nat, k: nat, size: nat)
    requires HeapOk(bs, base, end) && k < |bs| && Fits(bs[k], size)
    ensures k < |Taken(bs, k, size)| && Freed(Taken(bs, k, size), k) == bs
  {
    var r := Taken(bs, k, size);
    var r1 := r[k := r[k].(free := true)];
    if bs[k].size >= size + HEADER + MIN_SPLIT {
      assert Merged(r1, k) == bs;
    } else {
      assert r1 == bs;
    }
  }

  /** A heap with nothing allocated is the one block it started as. */
  lemma NothingLive(bs: seq<Block>, base: nat, end: nat)
    requires HeapOk(bs, base, end) && Live(bs) == {}
    ensures base + HEADER <= end && bs == Initial(base, end)
  {
    forall i | 0 <= i < |bs| ensures bs[i].free {
      var b := bs[i];
      assert b in bs && (b in Live(bs) <==> !b.free);
    }
    assert Chained(bs, 0, end);
  }

  // ----- Whole runs -----

  /** Free names the payload address, as the caller does. */
  datatype Op = Malloc(size: nat) | Free(ptr: nat)

  ghost predicate IsBlock(bs: seq<Block>, k: nat, ptr: nat) {
    k < |bs| && !bs[k].free && PayloadStart(bs[k]) == ptr
  }

  ghost predicate LivePtr(bs: seq<Block>, ptr: nat) {
    exists k :: IsBlock(bs, k, ptr)
  }

  ghost function IndexOf(bs: seq<Block>, ptr: nat): (k: nat)
    requires LivePtr(bs, ptr)
    ensures IsBlock(bs, k, ptr)
  {
    var k: nat :| IsBlock(bs, k, ptr);
    k
  }

  ghost predicate Allowed(bs: seq<Block>, op: Op) {
    op.Malloc? || LivePtr(bs, op.ptr)
  }

  ghost function Step(bs: seq<Block>, op: Op): seq<Block>
    requires Allowed(bs, op)
  {
    match op
    case Malloc(size) =>
      (var r := FirstFit(bs, AlignUp8(size), 0);
       if size == 0 || r.None? then bs else Taken(bs, r.value, AlignUp8(size)))
    case Free(ptr) => Freed(bs, IndexOf(bs, ptr))
  }

  ghost predicate Run(states: seq<seq<Block>>, ops: seq<Op>, base: nat, end: nat) {
    && |states| == |ops| + 1
    && base + HEADER <= end
    && states[0] == Initial(base, end)
    && (forall i :: 0 <= i < |ops| ==> Allowed(states[i], ops[i]) && states[i + 1] == Step(states[i], ops[i]))
  }

  lemma StepOk(bs: seq<Block>, op: Op, base: nat, end: nat)
    requires HeapOk(bs, base, end) && Allowed(bs, op)
    ensures HeapOk(Step(bs, op), base, end)
  {
    match op
    case Malloc(size) =>
      var r := FirstFit(bs, AlignUp8(size), 0);
      if size != 0 && r.Some? {
        AlignUp8Mod(size);
        TakenOk(bs, base, end, r.value, AlignUp8(size));
      }
    case Free(ptr) => FreedOk(bs, base, end, IndexOf(bs, ptr));
  }

  lemma AlignUp8Mod(size: nat)
    ensures AlignUp8(size) % 8 == 0 && AlignUp8(size) % 4 == 0
  {
    var x := (size + 7) % WORD / 8;
    assert AlignUp8(size) == 8 * x == 4 * (2 * x);
  }

  lemma {:induction false} RunOk(states: seq<seq<Block>>, ops: seq<Op>, base: nat, end: nat, i: nat)
    requires Run(states, ops, base, end) && i <= |ops|
    ensures HeapOk(states[i], base, end)
  {
    if i > 0 {
      RunOk(states, ops, base, end, i - 1);
      StepOk(states[i - 1], ops[i - 1], base, end);
    }
  }

  /** Whatever was allocated and freed in whatever order: once nothing is live, the heap
      is the single block it began with. */
  lemma FreeAllRestores(states: seq<seq<Block>>, ops: seq<Op>, base: nat, end: nat)
    requires Run(states, ops, base, end) && Live(states[|ops|]) == {}
    ensures states[|ops|] == states[0]
  {
    RunOk(states, ops, base, end, |ops|);
    NothingLive(states[|ops|], base, end);
  }

  /** A block somebody holds stays where it is, as big as it is, for as long as nobody
      frees it, and no other block reaches into it. */
  lemma {:induction false} HeldBlockStays(states: seq<seq<Block>>, ops: seq<Op>, base: nat, end: nat,
                                          i: nat, j: nat, b: Block)
    requires Run(states, ops, base, end) && i <= j <= |ops| && b in Live(states[i])
    requires forall n :: i <= n < j ==> ops[n] != Free(PayloadStart(b))
    ensures b in Live(states[j])
    ensures forall c :: c in states[j] && c != b ==> EndOf(c) <= b.addr || EndOf(b) <= c.addr
    decreases j - i
  {
    hide Step, HeapOk, Live, Allowed, EndOf;
    RunOk(states, ops, base, end, j);
    if i < j {
      HeldBlockStays(states, ops, base, end, i, j - 1, b);
      RunOk(states, ops, base, end, j - 1);
      assert states[j] == Step(states[j - 1], ops[j - 1]);
      StepKeepsHeld(states[j - 1], ops[j - 1], base, end, b);
    }
    NobodyReaches(states[j], base, end, b);
  }

  /** No other block reaches into a live one. */
  lemma NobodyReaches(bs: seq<Block>, base: nat, end: nat, b: Block)
    requires HeapOk(bs, base, end) && b in Live(bs)
    ensures forall c :: c in bs && c != b ==> EndOf(c) <= b.addr || EndOf(b) <= c.addr
  {
    hide EndOf, Tiled, Coalesced;
    forall c | c in bs && c != b ensures EndOf(c) <= b.addr || EndOf(b) <= c.addr {
      var m :| 0 <= m < |bs| && bs[m] == c;
      var n :| 0 <= n < |bs| && bs[n] == b;
      Disjoint(bs, base, end, m, n);
    }
  }

  lemma StepKeepsHeld(bs: seq<Block>, op: Op, base: nat, end: nat, b: Block)
    requires HeapOk(bs, base, end) && Allowed(bs, op) && b in Live(bs) && op != Free(PayloadStart(b))
    ensures b in Live(Step(bs, op))
  {
    match op
    case Malloc(size) =>
      var r := FirstFit(bs, AlignUp8(size), 0);
      if size != 0 && r.Some? {
        AlignUp8Mod(size);
        TakenLive(bs, base, end, r.value, AlignUp8(size));
      }
    case Free(ptr) =>
      FreedLive(bs, base, end, IndexOf(bs, ptr));
  }

  // ----- What a caller gets -----

  /** kmalloc fails exactly when no free block is big enough, and else serves the lowest
      address; what it serves is as big as asked unless rounding up wrapped around. */
  lemma MallocServes(bs: seq<Block>, base: nat, end: nat, size: nat)
    requires HeapOk(bs, base, end) && 0 < size < 0x1_0000_0000
    ensures var r := FirstFit(bs, AlignUp8(size), 0);
            && (r.None? <==> forall j :: 0 <= j < |bs| ==> !(bs[j].free && bs[j].size >= AlignUp8(size)))
            && (r.Some? ==> forall j :: 0 <= j < |bs| && Fits(bs[j], AlignUp8(size)) ==> bs[r.value].addr <= bs[j].addr)
    ensures AlignUp8(size) >= size <==> size <= 0xFFFF_FFF8
    ensures if size <= 0xFFFF_FFF8 then AlignUp8(size) % 8 == 0 && AlignUp8(size) < size + 8 else AlignUp8(size) == 0
  {
    var r := FirstFit(bs, AlignUp8(size), 0);
    if r.Some? {
      forall j | 0 <= j < |bs| && Fits(bs[j], AlignUp8(size)) ensures bs[r.value].addr <= bs[j].addr {
        if r.value < j { Ordered(bs, base, end, r.value, j); }
      }
    }
  }

  /** How much a request gets: what it asks for, rounded up, and less than 36 bytes more; if 36 or
      more would be left over, exactly that, and the rest is a free block of its own behind a header
      of twenty bytes. All blocks before and behind stay. */
  lemma ServedExactly(bs: seq<Block>, base: nat, end: nat, size: nat, k: nat)
    requires HeapOk(bs, base, end) && 0 < size < WORD && FirstFit(bs, AlignUp8(size), 0) == Some(k)
    ensures var r, need := Step(bs, Malloc(size)), AlignUp8(size);
      && k < |r| && r[k].addr == bs[k].addr && !r[k].free && need <= r[k].size < need + 36
      && (if bs[k].size - need >= 36 then
            && |r| == |bs| + 1 && r[k].size == need
            && r[k + 1] == Block(bs[k].addr + 20 + need, bs[k].size - need - 20, true)
            && r[..k] == bs[..k] && r[k + 2..] == bs[k + 1..]
          else |r| == |bs| && r[k].size == bs[k].size && r[..k] == bs[..k] && r[k + 1..] == bs[k + 1..])
  {
    hide AlignUp8, Tiled, Coalesced;
  }

  /** The wrap-around is real: the largest request is served by a block of no bytes. */
  lemma WrappedRequest()
    ensures AlignUp8(WORD - 1) == 0
    ensures Step(Initial(16, 1024), Malloc(WORD - 1)) == [Block(16, 0, false), Block(36, 968, true)]
  {
    var bs := Initial(16, 1024);
    assert FirstFit(bs, 0, 0) == Some(0);
    assert Taken(bs, 0, 0) == [Block(16, 0, false), Block(36, 968, true)];
  }

  /** kmalloc_aligned asks for size + alignment + 4 bytes, in 32 bits. The aligned result lies
      inside the block that this gives if and only if the sum is small enough not to wrap. */
  lemma AlignedFitsExactly(raw: nat, size: nat, alignment: nat)
    requires 8 < alignment <= WORD - 8 && size < WORD
    ensures var total := (size + alignment + 4) % WORD;
      AlignUp(raw + 4, alignment) + size <= raw + AlignUp8(total) <==> size + alignment + 4 <= WORD - 8
  {
    AlignUpBounds(raw + 4, alignment);
    hide AlignUp, AlignUp8, IsPow2;
    var sum := size + alignment + 4;
    var total := sum % WORD;
    RoundingBounds(total);
    if sum >= WORD {
      DivMod(sum, WORD, 1, sum - WORD);
    } else {
      DivMod(sum, WORD, 0, sum);
    }
  }

  lemma RoundingBounds(size: nat)
    requires size < WORD
    ensures if size <= WORD - 8 then size <= AlignUp8(size) <= size + 7 else AlignUp8(size) == 0
  {
    if size <= WORD - 8 {
      DivMod(size + 7, WORD, 0, size + 7);
    } else {
      DivMod(size + 7, WORD, 1, size + 7 - WORD);
    }
  }

  /** Rounding to eight and to sixteen is the mask form of ALIGN_UP. */
  lemma MaskForms(x: nat)
    ensures x + 7 < WORD ==> AlignUp8(x) == AlignUp(x, 8)
    ensures AlignUp16(x) == AlignUp(x, 16)
  {
    assert IsPow2(8) && IsPow2(16);
    hide AlignUp, IsPow2;
    AlignUpBounds(x, 8);
    AlignUpBounds(x, 16);
    if x + 7 < WORD { DivMod(x + 7, WORD, 0, x + 7); }
  }

  // ----- heap_init -----

  /** ALIGN_UP(x, 16). */
  function AlignUp16(x: nat): nat { (x + 15) / 16 * 16 }

  /** heap_init moves the start up but not the size down: the heap stays inside the
      region it was given exactly when that region is aligned. */
  lemma InitStaysInside(start: nat, size: nat)
    requires size >= HEADER
    ensures var base := AlignUp16(start);
            base + size <= start + size <==> start % 16 == 0
  {
  }

  // ----- heap_stats -----

  function Sum(bs: seq<Block>, free: bool): nat {
    if bs == [] then 0
    else Sum(bs[..|bs| - 1], free) + if bs[|bs| - 1].free == free then bs[|bs| - 1].size else 0
  }

  /** Used, free and header bytes are all of the heap. */
  lemma {:induction false} BytesConserved(bs: seq<Block>, base: nat, end: nat)
    requires Tiled(bs, base, end)
    ensures Sum(bs, true) + Sum(bs, false) + HEADER * |bs| == end - base
  {
    var n := |bs| - 1;
    assert Chained(bs, n, end);
    if n > 0 {
      var front := bs[..n];
      assert Tiled(front, base, bs[n].addr) by {
        forall i | 0 <= i < |front| ensures Chained(front, i, bs[n].addr) { assert Chained(bs, i, end); }
      }
      BytesConserved(front, base, bs[n].addr);
    }
  }

  /** From a base that is a multiple of sixteen, every payload is aligned to one, two and four. To
      eight, which kmalloc_aligned(size, 8) would promise, it is aligned if and only if its header
      is not; so the first payload never is. */
  lemma PayloadAlignment(bs: seq<Block>, base: nat, end: nat, k: nat, n: nat)
    requires Tiled(bs, base, end) && base % 16 == 0 && k < |bs| && IsPow2(n) && n <= 8
    ensures PayloadStart(bs[k]) % n == 0 <==> n != 8 || bs[k].addr % 8 == 4
    ensures k == 0 && n == 8 ==> PayloadStart(bs[k]) % n != 0
  {
    AddressAlignment(bs, base, end, k);
    assert bs[0].addr == base;
    hide Tiled;
    SmallPowers(n);
    var a := bs[k].addr;
    assert a == 4 * (a / 4);
    if n == 1 {
    } else if n == 2 {
      DivMod(a + HEADER, 2, 2 * (a / 4) + 10, 0);
    } else if n == 4 {
      DivMod(a + HEADER, 4, a / 4 + 5, 0);
    } else {
      EightsOf(a);
    }
    if k == 0 { DivMod(base, 8, 2 * (base / 16), 0); }
  }

  lemma SmallPowers(n: nat)
    requires IsPow2(n) && n <= 8
    ensures n == 1 || n == 2 || n == 4 || n == 8
  {
    assert n / 2 / 2 / 2 <= 1;
    assert n == 1 || n / 2 == 1 || n / 2 / 2 == 1 || n / 2 / 2 / 2 == 1;
  }

  lemma EightsOf(a: nat)
    requires a % 4 == 0
    ensures (a + HEADER) % 8 == 0 <==> a % 8 == 4
  {
    var q := a / 8;
    if a % 8 == 4 {
      DivMod(a + HEADER, 8, q + 3, 0);
    } else {
      assert a % 8 == 0;
      DivMod(a + HEADER, 8, q + 2, 4);
    }
  }

  lemma {:induction false} AddressAlignment(bs: seq<Block>, base: nat, end: nat, k: nat)
    requires Tiled(bs, base, end) && base % 16 == 0 && k < |bs|
    ensures bs[k].addr % 4 == 0
  {
    if k == 0 {
      DivMod(base, 4, 4 * (base / 16), 0);
    } else {
      StepAlignment(bs, base, end, k - 1);
      AddressAlignment(bs, base, end, k - 1);
      hide Tiled;
      DivMod(bs[k].addr, 4, bs[k - 1].addr / 4 + 5 + bs[k - 1].size / 4, 0);
    }
  }

  lemma StepAlignment(bs: seq<Block>, base: nat, end: nat, k: nat)
    requires Tiled(bs, base, end) && k + 1 < |bs|
    ensures bs[k].size % 4 == 0 && bs[k + 1].addr == bs[k].addr + HEADER + bs[k].size
  {
    assert Chained(bs, k, end);
  }
}
