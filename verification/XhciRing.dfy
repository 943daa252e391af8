/**
  The rings shared with an xHCI controller: one side writes transfer request blocks (TRBs),
  the other follows cycle bits and, on transfer and command rings, the link TRB in the last
  cell. Sections 4.9.2 to 4.9.4 of the xHCI specification describe the controller's side.
 */
module XhciRing {
  import opened Prelude

  datatype Trb = Trb(lo: nat, hi: nat, status: nat, control: nat)

  const LINK_TYPE := 6

  function CycleOf(t: Trb): nat { t.control % 2 }

  function WithCycle(t: Trb, c: nat): Trb { t.(control := t.control / 2 * 2 + c) }

  predicate IsLink(t: Trb) { t.control / 1024 % 64 == LINK_TYPE }

  /** The toggle-cycle flag of a link. */
  predicate Toggles(t: Trb) { t.control / 2 % 2 == 1 }

  function LinkTrb(base: nat, status: nat, c: nat): Trb { Trb(base, 0, status, LINK_TYPE * 1024 + 2 + c) }

  const ZERO := Trb(0, 0, 0, 0)

  /** A TRB apart from its cycle bit. */
  function Data(t: Trb): Trb { WithCycle(t, 0) }

  lemma CycleLaws(t: Trb, c: nat)
    requires c < 2
    ensures CycleOf(WithCycle(t, c)) == c && Data(WithCycle(t, c)) == Data(t) && IsLink(WithCycle(t, c)) == IsLink(t)
  {
    var h := t.control / 2;
    DivMod(h * 2 + c, 2, h, c);
    assert (h * 2 + c) / 1024 == h / 512 && t.control / 1024 == h / 512;
  }

  lemma LinkLaws(base: nat, status: nat, c: nat)
    requires c < 2
    ensures var l := LinkTrb(base, status, c); IsLink(l) && Toggles(l) && CycleOf(l) == c
  {
  }

  /** A control word from its fields, as section 6.4.4.1 of the xHCI specification has them: the
      cycle bit, the toggle-cycle flag of a link, other flags up to bit nine, the type and the rest. */
  lemma ControlFields(t: Trb, cycle: nat, toggle: nat, flags: nat, kind: nat, high: nat)
    requires cycle < 2 && toggle < 2 && flags < 256 && kind < 64
    requires t.control == cycle + 2 * toggle + 4 * flags + 1024 * kind + 65536 * high
    ensures CycleOf(t) == cycle && (Toggles(t) <==> toggle == 1) && (IsLink(t) <==> kind == 6)
    ensures forall c :: 0 <= c < 2 ==> WithCycle(t, c) == Trb(t.lo, t.hi, t.status, t.control - cycle + c)
  {
    DivMod(t.control, 1024, kind + 64 * high, cycle + 2 * toggle + 4 * flags);
    DivMod(t.control, 2, toggle + 2 * flags + 512 * kind + 32768 * high, cycle);
    DivMod(toggle + 2 * flags + 512 * kind + 32768 * high, 2, flags + 256 * kind + 16384 * high, toggle);
  }

  /** The link leads to the beginning of the ring, is of type six and toggles the cycle. */
  lemma LinkFields(base: nat, status: nat, c: nat)
    requires c < 2
    ensures LinkTrb(base, status, c) == Trb(base, 0, status, c + 2 + 1024 * 6)
  {
  }

  // ----- The producer -----

  datatype Ring = Ring(trbs: seq<Trb>, base: nat, enq: nat, cycle: nat)

  /** xhci_ring_enqueue_trb. */
  function Enqueue(r: Ring, t: Trb): (r': Ring)
    requires |r.trbs| >= 2 && r.enq < |r.trbs| && r.cycle < 2
    ensures |r'.trbs| == |r.trbs| && r'.enq < |r.trbs| && r'.cycle < 2
  {
    var n := |r.trbs| - 1;
    var w := if r.enq < n then r
             else Ring(r.trbs[n := LinkTrb(r.base, r.trbs[n].status, r.cycle)], r.base, 0, 1 - r.cycle);
    w.(trbs := w.trbs[w.enq := WithCycle(t, w.cycle)], enq := w.enq + 1)
  }

  // ----- The consumer -----

  datatype Consumer = Consumer(deq: nat, ccs: nat)

  datatype Look = Idle | Follow(next: Consumer) | Take(t: Trb, next: Consumer)

  /** What the controller does at its dequeue pointer: nothing if the cycle bit is not its own;
      go where a link leads; otherwise take the TRB. */
  function LookAt(trbs: seq<Trb>, base: nat, c: Consumer): Look
    requires c.deq < |trbs| && c.ccs < 2
  {
    var t := trbs[c.deq];
    if CycleOf(t) != c.ccs then Idle
    else if IsLink(t) then
      (if t.lo == base && t.hi == 0 then Follow(Consumer(0, if Toggles(t) then 1 - c.ccs else c.ccs)) else Idle)
    else Take(t, Consumer(c.deq + 1, c.ccs))
  }

  // ----- Both together -----

  /** `sent` and `got` are the TRBs enqueued and taken so far; a lap of the producer (the
      consumer) began with number lapP (lapC). */
  datatype State = State(r: Ring, c: Consumer, sent: seq<Trb>, got: seq<Trb>, lapP: nat, lapC: nat)

  function Cells(s: State): int { |s.r.trbs| - 1 }

  ghost predicate Positions(s: State) {
    var n := Cells(s);
    && n >= 1 && s.r.cycle < 2 && s.c.ccs < 2
    && s.r.enq <= n && |s.sent| == s.lapP + s.r.enq && (s.lapP == 0 || (s.lapP >= n && s.r.enq >= 1))
    && s.c.deq <= n && |s.got| == s.lapC + s.c.deq
    && |s.got| <= |s.sent| <= |s.got| + n
    && (s.lapP == 0 ==> s.r.cycle == 1)
    && Laps(s, n)
  }

  /** The consumer is in the producer's lap, one behind, or waits at the start of the next. */
  ghost predicate Laps(s: State, n: int) {
    || (s.lapC == s.lapP && s.c.ccs == s.r.cycle)
    || (s.lapC + n == s.lapP && s.c.ccs != s.r.cycle)
    || (s.lapC == s.lapP + n && s.r.enq == n && s.c.deq == 0 && s.c.ccs != s.r.cycle)
  }

  /** What cell i holds: a TRB of this lap, of the lap before, or nothing yet. */
  ghost function CellOf(s: State, i: nat): Trb
    requires Positions(s) && i < Cells(s)
  {
    if i < s.r.enq then WithCycle(s.sent[s.lapP + i], s.r.cycle)
    else if s.lapP > 0 then WithCycle(s.sent[s.lapP - Cells(s) + i], 1 - s.r.cycle)
    else ZERO
  }

  ghost predicate LinkReady(s: State)
    requires Positions(s)
  {
    s.r.trbs[Cells(s)] == LinkTrb(s.r.base, 0, if s.lapP == 0 then 1 else 1 - s.r.cycle)
  }

  ghost predicate Delivered(s: State) {
    |s.got| <= |s.sent| && forall i :: 0 <= i < |s.got| ==> Data(s.got[i]) == Data(s.sent[i])
  }

  ghost predicate Inv(s: State) {
    && Positions(s)
    && (forall i :: 0 <= i < Cells(s) ==> s.r.trbs[i] == CellOf(s, i))
    && LinkReady(s)
    && (forall i :: 0 <= i < |s.sent| ==> !IsLink(s.sent[i]))
    && Delivered(s)
  }

  datatype Action = Put(t: Trb) | Poll

  /** The producer enqueues while fewer than size - 1 TRBs are outstanding; the consumer looks
      whenever it likes. */
  ghost predicate Next(s: State, a: Action, s': State) {
    && |s.r.trbs| >= 2 && s.r.enq < |s.r.trbs| && s.r.cycle < 2 && s.c.deq < |s.r.trbs| && s.c.ccs < 2
    && match a
       case Put(t) =>
         && !IsLink(t) && |s.sent| - |s.got| < Cells(s)
         && s' == s.(r := Enqueue(s.r, t), sent := s.sent + [t],
                     lapP := if s.r.enq >= Cells(s) then s.lapP + Cells(s) else s.lapP)
       case Poll =>
         match LookAt(s.r.trbs, s.r.base, s.c)
         case Idle => s' == s
         case Follow(c) => s' == s.(c := c, lapC := s.lapC + Cells(s))
         case Take(t, c) => s' == s.(c := c, got := s.got + [t])
  }

  ghost predicate Start(s: State) {
    && |s.r.trbs| >= 2
    && s == State(Prepared(|s.r.trbs|, s.r.base), Consumer(0, 1), [], [], 0, 0)
  }

  /** ring_init and ring_setup_link_trb. */
  function Prepared(size: nat, base: nat): (r: Ring)
    requires size >= 2
    ensures |r.trbs| == size
  {
    Ring(seq(size - 1, _ => ZERO) + [LinkTrb(base, 0, 1)], base, 0, 1)
  }

  /** A fresh ring: cells of zeros, then the link with the cycle bit set. */
  lemma PreparedCells(size: nat, base: nat, i: nat)
    requires i < size && size >= 2
    ensures Prepared(size, base).trbs[i] == if i == size - 1 then Trb(base, 0, 0, 6147) else Trb(0, 0, 0, 0)
  {
  }

  lemma StartInv(s: State)
    requires Start(s)
    ensures Inv(s)
  {
  }

  // ----- The steps -----

  lemma PutPositions(s: State, t: Trb, s': State)
    requires Inv(s) && Next(s, Put(t), s')
    ensures Positions(s') && LinkReady(s')
  {
    hide WithCycle, IsLink;
  }

  lemma PutCells(s: State, t: Trb, s': State)
    requires Inv(s) && Next(s, Put(t), s') && Positions(s')
    ensures forall i :: 0 <= i < Cells(s') ==> s'.r.trbs[i] == CellOf(s', i)
  {
    hide WithCycle, IsLink;
    forall i | 0 <= i < Cells(s') ensures s'.r.trbs[i] == CellOf(s', i) {
      assert s.r.trbs[i] == CellOf(s, i);
    }
  }

  lemma PutInv(s: State, t: Trb, s': State)
    requires Inv(s) && Next(s, Put(t), s')
    ensures Inv(s')
  {
    PutPositions(s, t, s');
    PutCells(s, t, s');
    hide Positions, LinkReady, Enqueue, IsLink, CellOf;
  }

  /** What the consumer sees: the next TRB if there is one, the link at the end of a lap. */
  lemma Seen(s: State)
    requires Inv(s)
    ensures var n := Cells(s); var l := LookAt(s.r.trbs, s.r.base, s.c);
      && (s.c.deq < n ==>
            l == if |s.got| < |s.sent| then Take(WithCycle(s.sent[|s.got|], s.c.ccs), Consumer(s.c.deq + 1, s.c.ccs))
                 else Idle)
      && (s.c.deq == n ==> l == if s.lapC < s.lapP || s.lapP == 0 then Follow(Consumer(0, 1 - s.c.ccs)) else Idle)
  {
    var n := Cells(s);
    if s.c.deq == n {
      LinkLaws(s.r.base, 0, if s.lapP == 0 then 1 else 1 - s.r.cycle);
      hide IsLink, Toggles, CycleOf, WithCycle, LinkTrb;
    } else {
      assert s.r.trbs[s.c.deq] == CellOf(s, s.c.deq);
      if |s.got| < |s.sent| {
        CycleLaws(s.sent[|s.got|], s.c.ccs);
        hide IsLink, Toggles, CycleOf, WithCycle;
        assert CellOf(s, s.c.deq) == WithCycle(s.sent[|s.got|], s.c.ccs);
      } else {
        if s.lapP == s.lapC && s.lapP > 0 { CycleLaws(s.sent[s.lapP - n + s.c.deq], 1 - s.r.cycle); }
        if s.lapP + n == s.lapC { CycleLaws(s.sent[s.lapP], s.r.cycle); }
        hide IsLink, Toggles, WithCycle;
      }
    }
  }

  lemma PollPositions(s: State, s': State)
    requires Inv(s) && Next(s, Poll, s')
    ensures Positions(s') && s'.r == s.r && s'.sent == s.sent && s'.lapP == s.lapP
    ensures s'.got == s.got || (|s.got| < |s.sent| && s'.got == s.got + [WithCycle(s.sent[|s.got|], s.c.ccs)])
  {
    Seen(s);
    hide IsLink, LookAt, WithCycle, LinkTrb, LinkReady, Delivered, CellOf;
  }

  lemma PollInv(s: State, s': State)
    requires Inv(s) && Next(s, Poll, s')
    ensures Inv(s')
  {
    PollPositions(s, s');
    if |s.got| < |s.sent| { CycleLaws(s.sent[|s.got|], s.c.ccs); }
    hide IsLink, LookAt, WithCycle, LinkTrb, Data, Positions;
    forall i | 0 <= i < Cells(s') ensures s'.r.trbs[i] == CellOf(s', i) {
      assert s.r.trbs[i] == CellOf(s, i);
    }
  }

  // ----- Runs -----

  ghost predicate Run(states: seq<State>, acts: seq<Action>) {
    && |states| == |acts| + 1 && Start(states[0])
    && (forall i :: 0 <= i < |acts| ==> Next(states[i], acts[i], states[i + 1]))
  }

  lemma {:induction false} RunInv(states: seq<State>, acts: seq<Action>, k: nat)
    requires Run(states, acts) && k < |states|
    ensures Inv(states[k])
  {
    if k == 0 {
      StartInv(states[0]);
    } else {
      RunInv(states, acts, k - 1);
      assert Next(states[k - 1], acts[k - 1], states[k - 1 + 1]);
      match acts[k - 1]
      case Put(t) => PutInv(states[k - 1], t, states[k]);
      case Poll => PollInv(states[k - 1], states[k]);
    }
  }

  /** Over every run, however often the ring wraps: the consumer has taken a prefix of what was
      enqueued, once each and in order. */
  lemma RingRefinement(states: seq<State>, acts: seq<Action>, k: nat)
    requires Run(states, acts) && k < |states|
    ensures Delivered(states[k]) && |states[k].sent| <= |states[k].got| + Cells(states[k])
  {
    RunInv(states, acts, k);
  }

  /** What can happen: while fewer than size - 1 TRBs are outstanding the driver can enqueue any TRB
      that is not a link, which is the next one sent; the controller can always look. */
  lemma StepsPossible(s: State, t: Trb)
    requires Inv(s)
    ensures !IsLink(t) && |s.sent| - |s.got| < |s.r.trbs| - 1 ==>
      exists s' :: Next(s, Put(t), s') && s'.sent == s.sent + [t] && s'.got == s.got
        && s'.r == Enqueue(s.r, t) && s'.c == s.c
    ensures exists s' :: Next(s, Poll, s') && s'.sent == s.sent && s'.r == s.r
  {
    hide IsLink, CellOf, LinkReady, Delivered, Laps, Enqueue, LookAt;
    if !IsLink(t) && |s.sent| - |s.got| < |s.r.trbs| - 1 {
      var n := Cells(s);
      var s' := s.(r := Enqueue(s.r, t), sent := s.sent + [t], lapP := if s.r.enq >= n then s.lapP + n else s.lapP);
      assert Next(s, Put(t), s');
    }
    match LookAt(s.r.trbs, s.r.base, s.c)
    case Idle => assert Next(s, Poll, s);
    case Follow(c) => assert Next(s, Poll, s.(c := c, lapC := s.lapC + Cells(s)));
    case Take(u, c) => assert Next(s, Poll, s.(c := c, got := s.got + [u]));
  }

  /** If something is outstanding the consumer takes the next TRB, at the latest after
      following the link; if nothing is, it takes nothing. */
  lemma ConsumerProgress(s: State, s1: State, s2: State)
    requires Inv(s) && Next(s, Poll, s1) && Next(s1, Poll, s2)
    ensures if |s.got| < |s.sent| then |s1.got| > |s.got| || |s2.got| > |s.got| else s2.got == s1.got == s.got
  {
    PollInv(s, s1);
    Seen(s);
    Seen(s1);
    hide LookAt, CellOf, WithCycle, IsLink;
  }

  /** The bound is exact: one more TRB while size - 1 are outstanding replaces the oldest. */
  lemma OverrunLoses(s: State, t: Trb)
    requires Inv(s) && |s.sent| - |s.got| == Cells(s)
    ensures var deq := if s.c.deq == Cells(s) then 0 else s.c.deq;
      Enqueue(s.r, t).trbs[deq] == WithCycle(t, Enqueue(s.r, t).cycle)
  {
    hide WithCycle, IsLink, CellOf;
  }

  // ----- The driver's side -----

  class TrbRing {
    const trbs: array<Trb>
    const base: nat
    var enq: nat
    var cycle: nat

    ghost predicate Valid()
      reads this
    {
      trbs.Length >= 2 && enq < trbs.Length && cycle < 2
    }

    ghost function State(): Ring
      reads this, trbs
    {
      Ring(trbs[..], base, enq, cycle)
    }

    constructor (size: nat, base: nat)
      requires size >= 2
      ensures Valid() && fresh(trbs) && State() == Prepared(size, base)
    {
      trbs := new Trb[size](_ => ZERO);
      this.base := base;
      enq, cycle := 0, 1;
      new;
      trbs[size - 1] := LinkTrb(base, 0, cycle);
      assert trbs[..] == Prepared(size, base).trbs;
    }

    method EnqueueTrb(t: Trb)
      requires Valid()
      modifies this, trbs
      ensures Valid() && State() == Enqueue(old(State()), t)
    {
      var idx := enq;
      var n := trbs.Length - 1;
      if idx >= n {
        trbs[n] := trbs[n].(lo := base, hi := 0, control := LINK_TYPE * 1024 + 2 + cycle);
        enq := 0;
        cycle := 1 - cycle;
        idx := 0;
      }
      trbs[idx] := WithCycle(t, cycle);
      enq := enq + 1;
    }

    /** The wrap and store of xhci_submit_cmd, which sets the cycle bit without clearing it and
        rewrites only the control word of the link: the same as the other, if and only if the TRB
        comes without the bit or the bit is set in this lap. */
    method SubmitTrb(t: Trb)
      requires Valid() && trbs[trbs.Length - 1].lo == base && trbs[trbs.Length - 1].hi == 0
      modifies this, trbs
      ensures Valid() && enq == Enqueue(old(State()), t).enq && cycle == Enqueue(old(State()), t).cycle
      ensures State() == Enqueue(old(State()), t) <==> CycleOf(t) == 0 || cycle == 1
    {
      var idx := enq;
      var n := trbs.Length - 1;
      if idx >= n {
        trbs[n] := trbs[n].(control := LINK_TYPE * 1024 + 2 + cycle);
        enq := 0;
        cycle := 1 - cycle;
        idx := 0;
      }
      CycleSet(t, cycle);
      trbs[idx] := if CycleOf(t) == 1 then t else t.(control := t.control + cycle);
      enq := enq + 1;
      hide CycleOf, WithCycle, LinkTrb;
      assert trbs[..][idx] == trbs[idx] && Enqueue(old(State()), t).trbs[idx] == WithCycle(t, cycle);
    }
  }

  /** Setting the cycle bit gives it the wanted value unless it was set and is to be clear. */
  lemma CycleSet(t: Trb, c: nat)
    requires c < 2
    ensures (if CycleOf(t) == 1 then t else t.(control := t.control + c)) == WithCycle(t, c)
       <==> CycleOf(t) == 0 || c == 1
    ensures CycleOf(t) < 2
  {
  }

  // ----- The event ring -----

  /** The controller writes events and wraps at the end of the segment; there is no link. */
  function PostEvent(r: Ring, t: Trb): (r': Ring)
    requires r.enq < |r.trbs| && r.cycle < 2
    ensures |r'.trbs| == |r.trbs| && r'.enq < |r.trbs| && r'.cycle < 2
  {
    var w := r.(trbs := r.trbs[r.enq := WithCycle(t, r.cycle)], enq := r.enq + 1);
    if w.enq == |r.trbs| then w.(enq := 0, cycle := 1 - r.cycle) else w
  }

  /** xhci_poll_event. */
  function PollEvent(trbs: seq<Trb>, c: Consumer): (r: (Option<Trb>, Consumer))
    requires c.deq < |trbs| && c.ccs < 2
    ensures r.1.deq < |trbs| && r.1.ccs < 2
  {
    if CycleOf(trbs[c.deq]) != c.ccs then (None, c)
    else (Some(trbs[c.deq]), if c.deq + 1 >= |trbs| then Consumer(0, 1 - c.ccs) else Consumer(c.deq + 1, c.ccs))
  }

  ghost predicate EventPositions(s: State) {
    var n := |s.r.trbs|;
    && s.r.cycle < 2 && s.c.ccs < 2
    && s.r.enq < n && |s.sent| == s.lapP + s.r.enq && (s.lapP == 0 || s.lapP >= n)
    && s.c.deq < n && |s.got| == s.lapC + s.c.deq
    && |s.got| <= |s.sent| <= |s.got| + n
    && (s.lapP == 0 ==> s.r.cycle == 1)
    && ((s.lapC == s.lapP && s.c.ccs == s.r.cycle) || (s.lapC + n == s.lapP && s.c.ccs != s.r.cycle))
  }

  ghost function EventCell(s: State, i: nat): Trb
    requires EventPositions(s) && i < |s.r.trbs|
  {
    if i < s.r.enq then WithCycle(s.sent[s.lapP + i], s.r.cycle)
    else if s.lapP > 0 then WithCycle(s.sent[s.lapP - |s.r.trbs| + i], 1 - s.r.cycle)
    else ZERO
  }

  ghost predicate EventInv(s: State) {
    && EventPositions(s)
    && (forall i :: 0 <= i < |s.r.trbs| ==> s.r.trbs[i] == EventCell(s, i))
    && Delivered(s)
  }

  ghost predicate EventNext(s: State, a: Action, s': State) {
    && s.r.enq < |s.r.trbs| && s.r.cycle < 2 && s.c.deq < |s.r.trbs| && s.c.ccs < 2
    && match a
       case Put(t) =>
         && |s.sent| - |s.got| < |s.r.trbs|
         && s' == s.(r := PostEvent(s.r, t), sent := s.sent + [t],
                     lapP := if s.r.enq + 1 == |s.r.trbs| then s.lapP + |s.r.trbs| else s.lapP)
       case Poll =>
         var (e, c) := PollEvent(s.r.trbs, s.c);
         s' == s.(c := c, got := if e.Some? then s.got + [e.value] else s.got,
                  lapC := if e.Some? && s.c.deq + 1 == |s.r.trbs| then s.lapC + |s.r.trbs| else s.lapC)
  }

  ghost predicate EventStart(s: State) {
    |s.r.trbs| >= 1 && s == State(Ring(seq(|s.r.trbs|, _ => ZERO), s.r.base, 0, 1), Consumer(0, 1), [], [], 0, 0)
  }

  /** The driver sees an event exactly when one is outstanding, and then the next one. */
  lemma EventSeen(s: State)
    requires EventInv(s)
    ensures PollEvent(s.r.trbs, s.c).0 ==
            if |s.got| < |s.sent| then Some(WithCycle(s.sent[|s.got|], s.c.ccs)) else None
  {
    var n := |s.r.trbs|;
    assert s.r.trbs[s.c.deq] == EventCell(s, s.c.deq);
    if |s.got| < |s.sent| {
      CycleLaws(s.sent[|s.got|], s.c.ccs);
      hide CycleOf, WithCycle;
      assert EventCell(s, s.c.deq) == WithCycle(s.sent[|s.got|], s.c.ccs);
    } else if s.lapP > 0 {
      CycleLaws(s.sent[s.lapP - n + s.c.deq], 1 - s.r.cycle);
      hide CycleOf, WithCycle;
    }
  }

  lemma EventPutInv(s: State, t: Trb, s': State)
    requires EventInv(s) && EventNext(s, Put(t), s')
    ensures EventInv(s')
  {
    hide WithCycle, Data;
    assert EventPositions(s');
    forall i | 0 <= i < |s'.r.trbs| ensures s'.r.trbs[i] == EventCell(s', i) {
      assert s.r.trbs[i] == EventCell(s, i);
    }
  }

  lemma EventPollInv(s: State, s': State)
    requires EventInv(s) && EventNext(s, Poll, s')
    ensures EventInv(s')
  {
    EventSeen(s);
    if |s.got| < |s.sent| { CycleLaws(s.sent[|s.got|], s.c.ccs); }
    hide WithCycle, Data, CycleOf;
    assert EventPositions(s');
    forall i | 0 <= i < |s'.r.trbs| ensures s'.r.trbs[i] == EventCell(s', i) {
      assert s.r.trbs[i] == EventCell(s, i);
    }
  }

  ghost predicate EventRun(states: seq<State>, acts: seq<Action>) {
    && |states| == |acts| + 1 && EventStart(states[0])
    && (forall i :: 0 <= i < |acts| ==> EventNext(states[i], acts[i], states[i + 1]))
  }

  /** The mirror of RingRefinement: every event is polled once and in order. */
  lemma {:induction false} EventRefinement(states: seq<State>, acts: seq<Action>, k: nat)
    requires EventRun(states, acts) && k < |states|
    ensures EventInv(states[k]) && Delivered(states[k])
  {
    if k > 0 {
      EventRefinement(states, acts, k - 1);
      assert EventNext(states[k - 1], acts[k - 1], states[k - 1 + 1]);
      match acts[k - 1]
      case Put(t) => EventPutInv(states[k - 1], t, states[k]);
      case Poll => EventPollInv(states[k - 1], states[k]);
    }
  }

  class EventRing {
    const trbs: array<Trb>
    var deq: nat
    var cycle: nat

    ghost predicate Valid()
      reads this
    {
      deq < trbs.Length && cycle < 2
    }

    constructor (size: nat)
      requires size >= 1
      ensures Valid() && fresh(trbs) && trbs[..] == seq(size, _ => ZERO) && deq == 0 && cycle == 1
    {
      trbs := new Trb[size](_ => ZERO);
      deq, cycle := 0, 1;
    }

    method Poll() returns (r: Option<Trb>)
      requires Valid()
      modifies this
      ensures Valid()
      ensures (r, Consumer(deq, cycle)) == PollEvent(trbs[..], old(Consumer(deq, cycle)))
    {
      var t := trbs[deq];
      if CycleOf(t) != cycle {
        return None;
      }
      deq := deq + 1;
      if deq >= trbs.Length {
        deq := 0;
        cycle := 1 - cycle;
      }
      r := Some(t);
    }
  }
}
