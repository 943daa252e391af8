/**
  rtos_queue_send and rtos_queue_receive as a transition system.  Any number of
  tasks run them concurrently; a step is one region between irq_save and
  irq_restore, or one memory access of the unprotected code in between: one byte
  of a memcpy, one index update, one counter update.  Every task that is not
  parked may move next, so every schedule the kernel can produce is included.
 */
module MessageQueue {
  import opened Prelude
  import opened SyncObjects

  type Item = seq<bv8>

  /** The calls and accesses of a transfer, in program order: the first semaphore,
      the mutex, the memcpy with the index update, the counter, the mutex, the
      second semaphore. */
  datatype Stage = Wait | Lock | Copy | Count | Unlock | Signal

  /** Where a task is.  `data` is the caller's item buffer, of which the memcpy has
      moved `k` bytes; `try` is a timeout of zero. */
  datatype Pc = Idle | Busy(sending: bool, at: Stage, try: bool, data: Item, k: nat)

  datatype Place = OnSpaces | OnItems | OnLock

  /** The buffer with its indices.  `sent` and `taken` log, in buffer order, who put
      and who took each item. */
  datatype Ring = Ring(
    capacity: nat,
    itemSize: nat,
    buffer: seq<Item>,
    head: nat,
    tail: nat,
    count: int,
    sent: seq<(Tid, Item)>,
    taken: seq<(Tid, Item)>)

  /** `accepted[t]` and `returned[t]` log what the completed calls of task t reported. */
  datatype Queue = Queue(
    ring: Ring,
    spaces: Sem,
    items: Sem,
    lock: Mutex,
    pcs: seq<Pc>,
    parked: seq<Option<Place>>,
    accepted: seq<seq<Item>>,
    returned: seq<seq<Item>>)

  datatype Action = Begin(sending: bool, data: Item, try: bool) | Continue

  ghost predicate RingShaped(r: Ring) {
    && 1 <= r.capacity
    && 1 <= r.itemSize
    && |r.buffer| == r.capacity
    && (forall i :: 0 <= i < r.capacity ==> |r.buffer[i]| == r.itemSize)
    && r.head < r.capacity
    && r.tail < r.capacity
  }

  ghost predicate PcShaped(pc: Pc, itemSize: nat) {
    pc.Busy? ==> |pc.data| == itemSize && pc.k <= itemSize
  }

  ghost predicate Shaped(s: Queue) {
    && RingShaped(s.ring)
    && |s.parked| == |s.accepted| == |s.returned| == |s.pcs|
    && (forall t :: 0 <= t < |s.pcs| ==> PcShaped(s.pcs[t], s.ring.itemSize))
  }

  /** rtos_queue_create over an uninitialised buffer.  A zero item size or capacity
      makes the buffer allocation fail. */
  ghost predicate Created(s: Queue) {
    && Shaped(s)
    && s.ring.head == 0 && s.ring.tail == 0 && s.ring.count == 0
    && s.ring.sent == [] && s.ring.taken == []
    && s.spaces == Sem(s.ring.capacity, s.ring.capacity, [])
    && s.items == Sem(0, s.ring.capacity, [])
    && s.lock == Mutex(false, 0, None, [])
    && (forall t :: 0 <= t < |s.pcs| ==>
          s.pcs[t] == Idle && s.parked[t] == None && s.accepted[t] == [] && s.returned[t] == [])
  }

  /** Only a task that is not parked moves; an idle one first chooses its next call. */
  predicate Enabled(s: Queue, t: Tid, a: Action) {
    && t < |s.pcs|
    && |s.parked| == |s.pcs|
    && s.parked[t] == None
    && match a
       case Begin(_, data, _) => s.pcs[t] == Idle && |data| == s.ring.itemSize
       case Continue => s.pcs[t] != Idle
  }

  ghost function Step(s: Queue, t: Tid, a: Action): Queue
    requires Shaped(s)
    requires Enabled(s, t, a)
  {
    match a
    case Begin(sending, data, try) => Moved(s, t, Busy(sending, Wait, try, data, 0))
    case Continue =>
      match s.pcs[t].at
      case Wait => StepWait(s, t)
      case Lock => StepLock(s, t)
      case Copy => StepCopy(s, t)
      case Count => StepCount(s, t)
      case Unlock => StepUnlock(s, t)
      case Signal => StepSignal(s, t)
  }

  ghost predicate At(s: Queue, t: Tid, at: Stage) {
    && Shaped(s)
    && t < |s.pcs|
    && s.pcs[t].Busy?
    && s.pcs[t].at == at
    && s.parked[t] == None
  }

  /** rtos_sem_wait on sem_spaces (send) or sem_items (receive). */
  ghost function StepWait(s: Queue, t: Tid): Queue
    requires At(s, t, Wait)
  {
    var pc := s.pcs[t];
    if pc.sending then
      var (sem, outcome) := SemWait(s.spaces, t, pc.try);
      Waited(s.(spaces := sem), t, outcome, pc.(at := Lock), OnSpaces)
    else
      var (sem, outcome) := SemWait(s.items, t, pc.try);
      Waited(s.(items := sem), t, outcome, pc.(at := Lock), OnItems)
  }

  ghost function StepLock(s: Queue, t: Tid): Queue
    requires At(s, t, Lock)
  {
    var (m, outcome) := MutexLock(s.lock, t, false);
    Waited(s.(lock := m), t, outcome, s.pcs[t].(at := Copy), OnLock)
  }

  /** One byte of the memcpy, or the index update behind it. */
  ghost function StepCopy(s: Queue, t: Tid): Queue
    requires At(s, t, Copy)
  {
    var pc := s.pcs[t];
    if pc.k < s.ring.itemSize then
      if pc.sending then
        Moved(s, t, pc.(k := pc.k + 1)).(ring := CopyIn(s.ring, pc.k, pc.data[pc.k]))
      else
        Moved(s, t, pc.(data := pc.data[pc.k := s.ring.buffer[s.ring.head][pc.k]], k := pc.k + 1))
    else
      Moved(s, t, pc.(at := Count)).(
        ring := if pc.sending then AdvanceTail(s.ring, t, pc.data) else AdvanceHead(s.ring, t, pc.data))
  }

  ghost function StepCount(s: Queue, t: Tid): Queue
    requires At(s, t, Count)
  {
    var pc := s.pcs[t];
    Moved(s, t, pc.(at := Unlock)).(
      ring := s.ring.(count := if pc.sending then s.ring.count + 1 else s.ring.count - 1))
  }

  ghost function StepUnlock(s: Queue, t: Tid): Queue
    requires At(s, t, Unlock)
  {
    var (m, w) := MutexUnlock(s.lock, t);
    Moved(s, t, s.pcs[t].(at := Signal)).(lock := m, parked := Woken(s.parked, w))
  }

  /** rtos_sem_signal on the other semaphore, and the return. */
  ghost function StepSignal(s: Queue, t: Tid): Queue
    requires At(s, t, Signal)
  {
    var pc := s.pcs[t];
    if pc.sending then
      var (sem, w) := SemSignal(s.items);
      Moved(s, t, Idle).(items := sem, parked := Woken(s.parked, w),
                         accepted := s.accepted[t := s.accepted[t] + [pc.data]])
    else
      var (sem, w) := SemSignal(s.spaces);
      Moved(s, t, Idle).(spaces := sem, parked := Woken(s.parked, w),
                         returned := s.returned[t := s.returned[t] + [pc.data]])
  }

  ghost function Moved(s: Queue, t: Tid, pc: Pc): Queue
    requires t < |s.pcs|
  {
    s.(pcs := s.pcs[t := pc])
  }

  /** After a blocking call: go on at `next`, possibly after a stay at `place`, or give up. */
  ghost function Waited(s: Queue, t: Tid, outcome: Outcome, next: Pc, place: Place): Queue
    requires t < |s.pcs| == |s.parked|
  {
    match outcome
    case Acquired => Moved(s, t, next)
    case Refused => Moved(s, t, Idle)
    case Parked => Moved(s, t, next).(parked := s.parked[t := Some(place)])
  }

  ghost function Woken(parked: seq<Option<Place>>, w: Option<Tid>): (r: seq<Option<Place>>)
    ensures |r| == |parked|
  {
    if w.Some? && w.value < |parked| then parked[w.value := None] else parked
  }

  /** One byte of the memcpy into the tail slot. */
  ghost function CopyIn(r: Ring, k: nat, b: bv8): Ring
    requires RingShaped(r) && k < r.itemSize
  {
    r.(buffer := r.buffer[r.tail := r.buffer[r.tail][k := b]])
  }

  ghost function AdvanceTail(r: Ring, t: Tid, item: Item): Ring
    requires RingShaped(r)
  {
    r.(tail := (r.tail + 1) % r.capacity, sent := r.sent + [(t, item)])
  }

  ghost function AdvanceHead(r: Ring, t: Tid, out: Item): Ring
    requires RingShaped(r)
  {
    r.(head := (r.head + 1) % r.capacity, taken := r.taken + [(t, out)])
  }

  // ----- Wait queues -----

  /** A queue holds exactly the tasks parked at its place, each once. */
  ghost predicate QueueOk(q: seq<Tid>, place: Place, parked: seq<Option<Place>>) {
    && Distinct(q)
    && (forall i :: 0 <= i < |q| ==> q[i] < |parked| && parked[q[i]] == Some(place))
    && (forall t :: 0 <= t < |parked| && parked[t] == Some(place) ==> t in q)
  }

  lemma QueuePark(q: seq<Tid>, place: Place, parked: seq<Option<Place>>, t: Tid)
    requires QueueOk(q, place, parked) && t < |parked| && parked[t] == None
    ensures QueueOk(q + [t], place, parked[t := Some(place)])
    ensures forall other :: other != place ==> QueueOk(q, place, parked[t := Some(other)])
  {
  }

  lemma QueueWake(q: seq<Tid>, place: Place, parked: seq<Option<Place>>)
    requires QueueOk(q, place, parked) && q != []
    ensures QueueOk(q[1..], place, parked[q[0] := None])
  {
    forall t | 0 <= t < |parked| && parked[q[0] := None][t] == Some(place)
      ensures t in q[1..]
    {
      assert t in q && q == [q[0]] + q[1..];
    }
  }

  lemma QueueWakeOther(q: seq<Tid>, place: Place, parked: seq<Option<Place>>, w: Tid)
    requires QueueOk(q, place, parked) && w < |parked| && parked[w] != Some(place)
    ensures QueueOk(q, place, parked[w := None])
  {
  }

  ghost predicate QueuesOk(s: Queue) {
    && QueueOk(s.spaces.waiters, OnSpaces, s.parked)
    && QueueOk(s.items.waiters, OnItems, s.parked)
    && QueueOk(s.lock.waiters, OnLock, s.parked)
  }

  /** A parked task resumes right behind the call it is parked in; nothing is copied
      before the copy stage and everything after it. */
  ghost predicate PcOk(pc: Pc, parked: Option<Place>, itemSize: nat) {
    && (parked.Some? ==> pc.Busy? && pc.k == 0 && pc.at == if parked.value == OnLock then Copy else Lock)
    && (parked == Some(OnSpaces) ==> pc.sending)
    && (parked == Some(OnItems) ==> !pc.sending)
    && (pc.Busy? && (pc.at == Wait || pc.at == Lock) ==> pc.k == 0)
    && (pc.Busy? && (pc.at == Count || pc.at == Unlock || pc.at == Signal) ==> pc.k == itemSize)
  }

  ghost predicate PcsOk(s: Queue) {
    && |s.parked| == |s.pcs|
    && (forall t :: 0 <= t < |s.pcs| ==> PcOk(s.pcs[t], s.parked[t], s.ring.itemSize))
  }

  // ----- Mutual exclusion -----

  /** Inside the mutex-protected region, or queued for it. */
  predicate Critical(pc: Pc) {
    !pc.Idle? && (pc.at == Copy || pc.at == Count || pc.at == Unlock)
  }

  /** The owner is the one task in the protected region that is not parked. */
  ghost predicate OwnerOk(lock: Mutex, pcs: seq<Pc>, parked: seq<Option<Place>>) {
    && |pcs| == |parked|
    && MutexOk(lock)
    && lock.recursion <= 1
    && (lock.owner.Some? ==> lock.owner.value < |pcs|)
    && (forall t :: 0 <= t < |pcs| ==> (lock.owner == Some(t) <==> Critical(pcs[t]) && parked[t] == None))
  }

  // ----- Tokens -----

  /** What a task between its two semaphore calls is worth to the token count. */
  datatype Role = Bystander | HoldsSpace | OwesItem | HoldsItem | OwesSpace

  function RoleOf(pc: Pc, parked: Option<Place>): Role {
    if pc.Idle? || pc.at == Wait || parked == Some(OnSpaces) || parked == Some(OnItems) then Bystander
    else if pc.at == Lock || pc.at == Copy then (if pc.sending then HoldsSpace else HoldsItem)
    else if pc.sending then OwesItem else OwesSpace
  }

  ghost function Roles(pcs: seq<Pc>, parked: seq<Option<Place>>): seq<Role>
    requires |parked| == |pcs|
  {
    seq(|pcs|, i requires 0 <= i < |pcs| => RoleOf(pcs[i], parked[i]))
  }

  /** How many tasks are in a role. */
  ghost function Tally(s: Queue, r: Role): nat
    requires |s.parked| == |s.pcs|
  {
    multiset(Roles(s.pcs, s.parked))[r]
  }

  function One(b: bool): nat { if b then 1 else 0 }

  /** What a change of tasks t and w adds to a role. */
  ghost function Shift(s: Queue, s': Queue, t: Tid, r: Role): int
    requires t < |s.pcs| == |s.parked| && t < |s'.pcs| == |s'.parked|
  {
    One(RoleOf(s'.pcs[t], s'.parked[t]) == r) - One(RoleOf(s.pcs[t], s.parked[t]) == r)
  }

  /** Changing one task moves one unit from its old role to its new one. */
  lemma TallyUpdate(s: Queue, s': Queue, t: Tid, r: Role)
    requires |s.parked| == |s.pcs| == |s'.pcs| == |s'.parked| && t < |s.pcs|
    requires forall i :: 0 <= i < |s.pcs| && i != t ==> s'.pcs[i] == s.pcs[i] && s'.parked[i] == s.parked[i]
    ensures Tally(s', r) == Tally(s, r) + Shift(s, s', t, r)
    ensures RoleOf(s.pcs[t], s.parked[t]) == r ==> Tally(s, r) >= 1
  {
    assert Roles(s.pcs, s.parked)[t] == RoleOf(s.pcs[t], s.parked[t]);
    assert Roles(s'.pcs, s'.parked) == Roles(s.pcs, s.parked)[t := RoleOf(s'.pcs[t], s'.parked[t])];
  }

  /** The same for all roles, when besides the caller t the task w changes. */
  lemma Tallies(s: Queue, s': Queue, t: Tid, w: Tid)
    requires |s.parked| == |s.pcs| == |s'.pcs| == |s'.parked| && t < |s.pcs| && w < |s.pcs|
    requires t != w ==> s'.parked[t] == s.parked[t]
    requires forall i :: 0 <= i < |s.pcs| && i != t && i != w ==> s'.pcs[i] == s.pcs[i] && s'.parked[i] == s.parked[i]
    ensures forall r :: Tally(s', r) == Tally(s, r) + Shift(s, s', t, r) + if t == w then 0 else Shift(s, s', w, r)
    ensures Tally(s, RoleOf(s.pcs[t], s.parked[t])) >= 1
  {
    forall r
      ensures Tally(s', r) == Tally(s, r) + Shift(s, s', t, r) + if t == w then 0 else Shift(s, s', w, r)
    {
      if t == w {
        TallyUpdate(s, s', t, r);
      } else {
        var m := s.(pcs := s.pcs[t := s'.pcs[t]]);
        TallyUpdate(s, m, t, r);
        TallyUpdate(m, s', w, r);
      }
    }
    TallyUpdate(s, s, t, RoleOf(s.pcs[t], s.parked[t]));
  }

  ghost function Stored(r: Ring): int { |r.sent| - |r.taken| }

  /** Space tokens that are free, held or owed fill what the buffer leaves; item
      tokens that are free, owed or held are the buffer's contents. */
  ghost predicate TokensOk(s: Queue)
    requires |s.parked| == |s.pcs|
  {
    && SemOk(s.spaces) && SemOk(s.items)
    && s.spaces.max == s.ring.capacity && s.items.max == s.ring.capacity
    && s.spaces.count + Tally(s, HoldsSpace) + Tally(s, OwesSpace) == s.ring.capacity - Stored(s.ring)
    && s.items.count + Tally(s, OwesItem) + Tally(s, HoldsItem) == Stored(s.ring)
  }

  // ----- The ring -----

  /** The counter lags the index only while the owner stands between the two updates. */
  function Lag(pc: Pc): int {
    if pc.Idle? || pc.at != Count then 0 else if pc.sending then 1 else -1
  }

  ghost function OwnerLag(lock: Mutex, pcs: seq<Pc>): int {
    if lock.owner.Some? && lock.owner.value < |pcs| then Lag(pcs[lock.owner.value]) else 0
  }

  ghost predicate RingOk(r: Ring, lag: int)
    requires RingShaped(r)
  {
    && r.tail == |r.sent| % r.capacity
    && r.head == |r.taken| % r.capacity
    && |r.taken| <= |r.sent| <= |r.taken| + r.capacity
    && (forall i :: 0 <= i < |r.taken| ==> r.taken[i].1 == r.sent[i].1)
    && (forall i :: |r.taken| <= i < |r.sent| ==> r.buffer[i % r.capacity] == r.sent[i].1)
    && r.count + lag == |r.sent| - |r.taken|
  }

  /** A copy in progress agrees with the slot so far. */
  ghost predicate CopyOk(r: Ring, pc: Pc)
    requires RingShaped(r) && PcShaped(pc, r.itemSize)
  {
    pc.Busy? && pc.at == Copy ==>
      r.buffer[if pc.sending then r.tail else r.head][..pc.k] == pc.data[..pc.k]
  }

  ghost predicate CopiesOk(s: Queue)
    requires Shaped(s)
  {
    forall t :: 0 <= t < |s.pcs| ==> CopyOk(s.ring, s.pcs[t])
  }

  // ----- The logs -----

  /** The items of a log that belong to one task, in order. */
  ghost function Share(log: seq<(Tid, Item)>, t: Tid): seq<Item> {
    if log == [] then []
    else
      var n := |log| - 1;
      Share(log[..n], t) + if log[n].0 == t then [log[n].1] else []
  }

  /** The item of a call that has changed the ring but not yet returned. */
  function InFlight(pc: Pc, sending: bool): seq<Item> {
    if pc.Busy? && pc.sending == sending && (pc.at == Count || pc.at == Unlock || pc.at == Signal)
    then [pc.data] else []
  }

  ghost predicate LogOk(s: Queue, t: Tid)
    requires t < |s.pcs| == |s.accepted| == |s.returned|
  {
    && Share(s.ring.sent, t) == s.accepted[t] + InFlight(s.pcs[t], true)
    && Share(s.ring.taken, t) == s.returned[t] + InFlight(s.pcs[t], false)
  }

  ghost predicate LogsOk(s: Queue)
    requires Shaped(s)
  {
    forall t :: 0 <= t < |s.pcs| ==> LogOk(s, t)
  }

  ghost predicate Inv(s: Queue) {
    && Shaped(s)
    && PcsOk(s)
    && QueuesOk(s)
    && OwnerOk(s.lock, s.pcs, s.parked)
    && TokensOk(s)
    && RingOk(s.ring, OwnerLag(s.lock, s.pcs))
    && CopiesOk(s)
    && LogsOk(s)
  }

  // ----- Every step keeps each part of the invariant -----

  lemma StepShaped(s: Queue, t: Tid, a: Action)
    requires Shaped(s) && Enabled(s, t, a)
    ensures Shaped(Step(s, t, a))
  {
    if a == Continue {
      match s.pcs[t].at
      case Wait => assert Shaped(StepWait(s, t));
      case Lock => assert Shaped(StepLock(s, t));
      case Copy => assert Shaped(StepCopy(s, t));
      case Count => assert Shaped(StepCount(s, t));
      case Unlock => assert Shaped(StepUnlock(s, t));
      case Signal => assert Shaped(StepSignal(s, t));
    }
  }

  lemma StepPcs(s: Queue, t: Tid, a: Action)
    requires Shaped(s) && Enabled(s, t, a) && PcsOk(s)
    ensures PcsOk(Step(s, t, a))
  {
    if a == Continue {
      match s.pcs[t].at
      case Wait => assert PcsOk(StepWait(s, t));
      case Lock => assert PcsOk(StepLock(s, t));
      case Copy => assert PcsOk(StepCopy(s, t));
      case Count => assert PcsOk(StepCount(s, t));
      case Unlock => assert PcsOk(StepUnlock(s, t));
      case Signal => assert PcsOk(StepSignal(s, t));
    }
  }

  /** Parking the caller in one queue leaves the other two alone. */
  lemma ParkedQueues(s: Queue, t: Tid)
    requires QueuesOk(s) && t < |s.parked| && s.parked[t] == None
    ensures QueueOk(s.spaces.waiters + [t], OnSpaces, s.parked[t := Some(OnSpaces)])
    ensures QueueOk(s.items.waiters + [t], OnItems, s.parked[t := Some(OnItems)])
    ensures QueueOk(s.lock.waiters + [t], OnLock, s.parked[t := Some(OnLock)])
    ensures forall p :: p != OnSpaces ==> QueueOk(s.spaces.waiters, OnSpaces, s.parked[t := Some(p)])
    ensures forall p :: p != OnItems ==> QueueOk(s.items.waiters, OnItems, s.parked[t := Some(p)])
    ensures forall p :: p != OnLock ==> QueueOk(s.lock.waiters, OnLock, s.parked[t := Some(p)])
  {
    QueuePark(s.spaces.waiters, OnSpaces, s.parked, t);
    QueuePark(s.items.waiters, OnItems, s.parked, t);
    QueuePark(s.lock.waiters, OnLock, s.parked, t);
  }

  /** Waking the head of one queue leaves the other two alone. */
  lemma WokenQueues(s: Queue)
    requires QueuesOk(s)
    ensures s.spaces.waiters != [] ==> s.spaces.waiters[0] < |s.parked|
    ensures s.items.waiters != [] ==> s.items.waiters[0] < |s.parked|
    ensures s.lock.waiters != [] ==> s.lock.waiters[0] < |s.parked|
    ensures s.spaces.waiters != [] ==>
      QueuesOk(s.(spaces := s.spaces.(waiters := s.spaces.waiters[1..]),
                  parked := s.parked[s.spaces.waiters[0] := None]))
    ensures s.items.waiters != [] ==>
      QueuesOk(s.(items := s.items.(waiters := s.items.waiters[1..]), parked := s.parked[s.items.waiters[0] := None]))
    ensures s.lock.waiters != [] ==>
      QueuesOk(s.(lock := s.lock.(waiters := s.lock.waiters[1..]), parked := s.parked[s.lock.waiters[0] := None]))
  {
    if s.spaces.waiters != [] {
      QueueWake(s.spaces.waiters, OnSpaces, s.parked);
      QueueWakeOther(s.items.waiters, OnItems, s.parked, s.spaces.waiters[0]);
      QueueWakeOther(s.lock.waiters, OnLock, s.parked, s.spaces.waiters[0]);
    }
    if s.items.waiters != [] {
      QueueWake(s.items.waiters, OnItems, s.parked);
      QueueWakeOther(s.spaces.waiters, OnSpaces, s.parked, s.items.waiters[0]);
      QueueWakeOther(s.lock.waiters, OnLock, s.parked, s.items.waiters[0]);
    }
    if s.lock.waiters != [] {
      QueueWake(s.lock.waiters, OnLock, s.parked);
      QueueWakeOther(s.spaces.waiters, OnSpaces, s.parked, s.lock.waiters[0]);
      QueueWakeOther(s.items.waiters, OnItems, s.parked, s.lock.waiters[0]);
    }
  }

  lemma StepQueues(s: Queue, t: Tid, a: Action)
    requires Shaped(s) && Enabled(s, t, a) && QueuesOk(s)
    ensures QueuesOk(Step(s, t, a))
  {
    hide QueueOk;
    ParkedQueues(s, t);
    WokenQueues(s);
    if a == Continue {
      match s.pcs[t].at
      case Wait => assert QueuesOk(StepWait(s, t));
      case Lock => assert QueuesOk(StepLock(s, t));
      case Unlock => assert QueuesOk(StepUnlock(s, t));
      case Signal => assert QueuesOk(StepSignal(s, t));
      case _ =>
    }
  }

  /** A task that stays on its side of the lock. */
  lemma OutsideOwner(s: Queue, t: Tid, pc: Pc)
    requires Shaped(s) && t < |s.pcs| && s.parked[t] == None && OwnerOk(s.lock, s.pcs, s.parked)
    requires Critical(pc) <==> Critical(s.pcs[t])
    ensures var s' := Moved(s, t, pc); OwnerOk(s'.lock, s'.pcs, s'.parked)
  {
  }

  lemma WaitOwner(s: Queue, t: Tid)
    requires At(s, t, Wait) && OwnerOk(s.lock, s.pcs, s.parked)
    ensures var s' := StepWait(s, t); OwnerOk(s'.lock, s'.pcs, s'.parked)
  {
  }

  lemma CopyOwner(s: Queue, t: Tid)
    requires At(s, t, Copy) && OwnerOk(s.lock, s.pcs, s.parked)
    ensures var s' := StepCopy(s, t); OwnerOk(s'.lock, s'.pcs, s'.parked)
  {
  }

  lemma CountOwner(s: Queue, t: Tid)
    requires At(s, t, Count) && OwnerOk(s.lock, s.pcs, s.parked)
    ensures var s' := StepCount(s, t); OwnerOk(s'.lock, s'.pcs, s'.parked)
  {
  }

  lemma LockOwner(s: Queue, t: Tid)
    requires At(s, t, Lock) && QueuesOk(s) && OwnerOk(s.lock, s.pcs, s.parked)
    ensures var s' := StepLock(s, t); OwnerOk(s'.lock, s'.pcs, s'.parked)
  {
  }

  lemma UnlockOwner(s: Queue, t: Tid)
    requires At(s, t, Unlock) && PcsOk(s) && QueuesOk(s) && OwnerOk(s.lock, s.pcs, s.parked)
    ensures var s' := StepUnlock(s, t); OwnerOk(s'.lock, s'.pcs, s'.parked)
  {
  }

  lemma SignalOwner(s: Queue, t: Tid)
    requires At(s, t, Signal) && PcsOk(s) && QueuesOk(s) && OwnerOk(s.lock, s.pcs, s.parked)
    ensures var s' := StepSignal(s, t); OwnerOk(s'.lock, s'.pcs, s'.parked)
  {
  }

  lemma StepOwner(s: Queue, t: Tid, a: Action)
    requires Shaped(s) && Enabled(s, t, a) && PcsOk(s) && QueuesOk(s) && OwnerOk(s.lock, s.pcs, s.parked)
    ensures var s' := Step(s, t, a); OwnerOk(s'.lock, s'.pcs, s'.parked)
  {
    hide OwnerOk, QueuesOk, PcsOk, StepWait, StepLock, StepCopy, StepCount, StepUnlock, StepSignal, Moved;
    match a
    case Begin(sending, data, try) => OutsideOwner(s, t, Busy(sending, Wait, try, data, 0));
    case Continue =>
      match s.pcs[t].at
      case Wait => WaitOwner(s, t);
      case Lock => LockOwner(s, t);
      case Copy => CopyOwner(s, t);
      case Count => CountOwner(s, t);
      case Unlock => UnlockOwner(s, t);
      case Signal => SignalOwner(s, t);
  }

  lemma WaitTokens(s: Queue, t: Tid)
    requires At(s, t, Wait) && TokensOk(s) && QueuesOk(s)
    ensures var s' := StepWait(s, t); |s'.parked| == |s'.pcs| && TokensOk(s')
  {
    hide Tally;
    Tallies(s, StepWait(s, t), t, t);
  }

  lemma SignalTokens(s: Queue, t: Tid)
    requires At(s, t, Signal) && TokensOk(s) && QueuesOk(s) && PcsOk(s)
    requires 0 <= Stored(s.ring) <= s.ring.capacity
    ensures var s' := StepSignal(s, t); |s'.parked| == |s'.pcs| && TokensOk(s')
  {
    hide Tally;
    var q := if s.pcs[t].sending then s.items.waiters else s.spaces.waiters;
    Tallies(s, StepSignal(s, t), t, if q == [] then t else q[0]);
  }

  lemma UnlockTokens(s: Queue, t: Tid)
    requires At(s, t, Unlock) && TokensOk(s) && QueuesOk(s) && PcsOk(s)
    ensures var s' := StepUnlock(s, t); |s'.parked| == |s'.pcs| && TokensOk(s')
  {
    hide Tally;
    var (m, w) := MutexUnlock(s.lock, t);
    Tallies(s, StepUnlock(s, t), t, if w == None then t else w.value);
  }

  lemma StepTokens(s: Queue, t: Tid, a: Action)
    requires Shaped(s) && Enabled(s, t, a) && PcsOk(s) && QueuesOk(s) && TokensOk(s)
    requires 0 <= Stored(s.ring) <= s.ring.capacity
    ensures var s' := Step(s, t, a); |s'.parked| == |s'.pcs| && TokensOk(s')
  {
    hide Tally, TokensOk, QueuesOk, PcsOk;
    if a == Continue && s.pcs[t].at == Wait {
      WaitTokens(s, t);
    } else if a == Continue && s.pcs[t].at == Signal {
      SignalTokens(s, t);
    } else if a == Continue && s.pcs[t].at == Unlock {
      UnlockTokens(s, t);
    } else if a == Continue && s.pcs[t].at == Lock {
      LockTokens(s, t);
    } else {
      QuietTokens(s, t, a);
    }
  }

  lemma LockTokens(s: Queue, t: Tid)
    requires At(s, t, Lock) && TokensOk(s) && QueuesOk(s)
    ensures var s' := StepLock(s, t); |s'.parked| == |s'.pcs| && TokensOk(s')
  {
    hide Tally;
    Tallies(s, StepLock(s, t), t, t);
  }

  lemma QuietTokens(s: Queue, t: Tid, a: Action)
    requires Shaped(s) && Enabled(s, t, a) && TokensOk(s) && 0 <= Stored(s.ring) <= s.ring.capacity
    requires a == Continue ==> s.pcs[t].at == Copy || s.pcs[t].at == Count
    ensures var s' := Step(s, t, a); |s'.parked| == |s'.pcs| && TokensOk(s')
  {
    hide Tally;
    Tallies(s, Step(s, t, a), t, t);
  }

  // ----- The ring and the logs -----

  lemma ModSucc(i: nat, n: nat)
    requires n > 0
    ensures (i % n + 1) % n == (i + 1) % n
  {
    var q, r := i / n, i % n;
    assert i == n * q + r;
    if r + 1 < n {
      DivMod(i + 1, n, q, r + 1);
      DivMod(r + 1, n, 0, r + 1);
    } else {
      assert n * (q + 1) == n * q + n;
      DivMod(i + 1, n, q + 1, 0);
      DivMod(r + 1, n, 1, 0);
    }
  }

  /** Positions less than one turn apart use different slots. */
  lemma ModDistinct(i: nat, j: nat, n: nat)
    requires i < j < i + n
    ensures i % n != j % n
  {
    var d := j / n - i / n;
    assert n * d == j - i + i % n - j % n;
    assert d >= 1 ==> n * d >= n;
    assert d <= 0 ==> n * d <= 0;
  }

  lemma RingCopyIn(r: Ring, k: nat, b: bv8, lag: int)
    requires RingShaped(r) && RingOk(r, lag) && k < r.itemSize && Stored(r) < r.capacity
    ensures RingShaped(CopyIn(r, k, b)) && RingOk(CopyIn(r, k, b), lag)
  {
    forall i | |r.taken| <= i < |r.sent| ensures i % r.capacity != r.tail {
      ModDistinct(i, |r.sent|, r.capacity);
    }
  }

  lemma RingAdvanceTail(r: Ring, t: Tid, item: Item)
    requires RingShaped(r) && RingOk(r, 0) && Stored(r) < r.capacity && r.buffer[r.tail] == item
    ensures RingShaped(AdvanceTail(r, t, item)) && RingOk(AdvanceTail(r, t, item), 1)
  {
    ModSucc(|r.sent|, r.capacity);
  }

  lemma RingAdvanceHead(r: Ring, t: Tid, out: Item)
    requires RingShaped(r) && RingOk(r, 0) && Stored(r) > 0 && r.buffer[r.head] == out
    ensures RingShaped(AdvanceHead(r, t, out)) && RingOk(AdvanceHead(r, t, out), -1)
  {
    ModSucc(|r.taken|, r.capacity);
  }

  /** A task in the copy stage holds a token, so its slot is free, or filled. */
  lemma CopyHasRoom(s: Queue, t: Tid)
    requires At(s, t, Copy) && TokensOk(s)
    ensures s.pcs[t].sending ==> Stored(s.ring) < s.ring.capacity
    ensures !s.pcs[t].sending ==> Stored(s.ring) > 0
  {
    TallyUpdate(s, s, t, RoleOf(s.pcs[t], s.parked[t]));
  }

  lemma CopyRing(s: Queue, t: Tid)
    requires At(s, t, Copy) && TokensOk(s) && OwnerOk(s.lock, s.pcs, s.parked) && CopiesOk(s)
    requires RingOk(s.ring, OwnerLag(s.lock, s.pcs))
    ensures var s' := StepCopy(s, t); RingShaped(s'.ring) && RingOk(s'.ring, OwnerLag(s'.lock, s'.pcs))
  {
    hide Tally;
    CopyHasRoom(s, t);
    var pc := s.pcs[t];
    assert s.lock.owner == Some(t) && CopyOk(s.ring, pc);
    if pc.k < s.ring.itemSize {
      if pc.sending { RingCopyIn(s.ring, pc.k, pc.data[pc.k], 0); }
    } else {
      var slot := s.ring.buffer[if pc.sending then s.ring.tail else s.ring.head];
      assert slot == slot[..pc.k] && pc.data == pc.data[..pc.k];
      if pc.sending { RingAdvanceTail(s.ring, t, pc.data); } else { RingAdvanceHead(s.ring, t, pc.data); }
    }
  }

  lemma StepRing(s: Queue, t: Tid, a: Action)
    requires Shaped(s) && Enabled(s, t, a) && PcsOk(s) && QueuesOk(s) && OwnerOk(s.lock, s.pcs, s.parked)
    requires TokensOk(s) && CopiesOk(s) && RingOk(s.ring, OwnerLag(s.lock, s.pcs))
    ensures var s' := Step(s, t, a); RingShaped(s'.ring) && RingOk(s'.ring, OwnerLag(s'.lock, s'.pcs))
  {
    hide Tally, CopyOk, RingOk;
    if a == Continue && s.pcs[t].at == Copy {
      CopyRing(s, t);
    } else if a == Continue && s.pcs[t].at == Count {
      CountRing(s, t);
    } else {
      assert OwnerLag(Step(s, t, a).lock, Step(s, t, a).pcs) == OwnerLag(s.lock, s.pcs);
    }
  }

  lemma CountRing(s: Queue, t: Tid)
    requires At(s, t, Count) && OwnerOk(s.lock, s.pcs, s.parked) && RingOk(s.ring, OwnerLag(s.lock, s.pcs))
    ensures var s' := StepCount(s, t); RingShaped(s'.ring) && RingOk(s'.ring, OwnerLag(s'.lock, s'.pcs))
  {
  }

  lemma StepCopies(s: Queue, t: Tid, a: Action)
    requires Shaped(s) && Enabled(s, t, a) && PcsOk(s) && OwnerOk(s.lock, s.pcs, s.parked) && CopiesOk(s)
    requires Shaped(Step(s, t, a))
    ensures CopiesOk(Step(s, t, a))
  {
    var s' := Step(s, t, a);
    forall u | 0 <= u < |s'.pcs|
      ensures CopyOk(s'.ring, s'.pcs[u])
    {
      if u == t { OwnCopy(s, t, a); } else { OtherCopy(s, t, a, u); }
    }
  }

  lemma OwnCopy(s: Queue, t: Tid, a: Action)
    requires Shaped(s) && Enabled(s, t, a) && PcOk(s.pcs[t], s.parked[t], s.ring.itemSize) && CopyOk(s.ring, s.pcs[t])
    requires Shaped(Step(s, t, a))
    ensures var s' := Step(s, t, a); CopyOk(s'.ring, s'.pcs[t])
  {
  }

  /** Whoever else is in the copy stage is parked and has not begun. */
  lemma OtherCopy(s: Queue, t: Tid, a: Action, u: Tid)
    requires Shaped(s) && Enabled(s, t, a) && PcsOk(s) && OwnerOk(s.lock, s.pcs, s.parked)
    requires u < |s.pcs| && u != t && CopyOk(s.ring, s.pcs[u])
    requires Shaped(Step(s, t, a))
    ensures var s' := Step(s, t, a); CopyOk(s'.ring, s'.pcs[u])
  {
    if a == Continue && s.pcs[t].at == Copy && s.pcs[u].Busy? && s.pcs[u].at == Copy {
      assert s.lock.owner == Some(t);
      assert s.parked[u].Some?;
      assert s.pcs[u].data[..0] == [];
    }
  }

  lemma ShareAppend(log: seq<(Tid, Item)>, t: Tid, item: Item, u: Tid)
    ensures Share(log + [(t, item)], u) == Share(log, u) + if t == u then [item] else []
  {
    assert (log + [(t, item)])[..|log|] == log;
  }

  lemma StepLogs(s: Queue, t: Tid, a: Action)
    requires Shaped(s) && Enabled(s, t, a) && LogsOk(s)
    requires Shaped(Step(s, t, a))
    ensures LogsOk(Step(s, t, a))
  {
    var s' := Step(s, t, a);
    forall u | 0 <= u < |s'.pcs|
      ensures LogOk(s', u)
    {
      assert LogOk(s, u);
      StepLog(s, t, a, u);
    }
  }

  lemma CopyLog(s: Queue, t: Tid, u: Tid)
    requires At(s, t, Copy) && u < |s.pcs| && LogOk(s, u)
    ensures |StepCopy(s, t).pcs| == |s.pcs| && LogOk(StepCopy(s, t), u)
  {
    hide Share;
    ShareAppend(s.ring.sent, t, s.pcs[t].data, u);
    ShareAppend(s.ring.taken, t, s.pcs[t].data, u);
  }

  /** The item moves from the call in flight to the call's result. */
  lemma SignalLog(s: Queue, t: Tid, u: Tid)
    requires At(s, t, Signal) && u < |s.pcs| && LogOk(s, u)
    ensures |StepSignal(s, t).pcs| == |s.pcs| && LogOk(StepSignal(s, t), u)
  {
    hide Share;
  }

  lemma QuietLog(s: Queue, s': Queue, t: Tid, u: Tid)
    requires Shaped(s) && Shaped(s') && t < |s.pcs| == |s'.pcs| && u < |s.pcs| && LogOk(s, u)
    requires s'.ring.sent == s.ring.sent && s'.ring.taken == s.ring.taken
    requires s'.accepted == s.accepted && s'.returned == s.returned
    requires u != t ==> s'.pcs[u] == s.pcs[u]
    requires forall d :: InFlight(s'.pcs[t], d) == InFlight(s.pcs[t], d)
    ensures LogOk(s', u)
  {
    hide Share;
    if u != t {
      assert InFlight(s'.pcs[u], true) == InFlight(s.pcs[u], true);
    }
  }

  lemma StepLog(s: Queue, t: Tid, a: Action, u: Tid)
    requires Shaped(s) && Enabled(s, t, a) && u < |s.pcs| && LogOk(s, u)
    requires Shaped(Step(s, t, a))
    ensures LogOk(Step(s, t, a), u)
  {
    hide Share, LogOk;
    if a == Continue && s.pcs[t].at == Copy {
      CopyLog(s, t, u);
    } else if a == Continue && s.pcs[t].at == Signal {
      SignalLog(s, t, u);
    } else {
      QuietLog(s, Step(s, t, a), t, u);
    }
  }

  // ----- Every reachable state -----

  lemma StepInv(s: Queue, t: Tid, a: Action)
    requires Inv(s) && Enabled(s, t, a)
    ensures Inv(Step(s, t, a))
  {
    hide Step, PcsOk, QueuesOk, OwnerOk, TokensOk, CopiesOk, LogsOk;
    StepShaped(s, t, a);
    StepPcs(s, t, a);
    StepQueues(s, t, a);
    StepOwner(s, t, a);
    StepTokens(s, t, a);
    StepRing(s, t, a);
    StepCopies(s, t, a);
    StepLogs(s, t, a);
  }

  lemma CreatedInv(s: Queue)
    requires Created(s)
    ensures Inv(s)
  {
    forall r | r != Bystander ensures Tally(s, r) == 0 {
      assert r !in Roles(s.pcs, s.parked);
    }
  }

  /** A run of the queue: who moved and how. */
  ghost predicate Run(states: seq<Queue>, moves: seq<(Tid, Action)>) {
    && |states| == |moves| + 1
    && Created(states[0])
    && (forall i :: 0 <= i < |moves| ==>
          && Shaped(states[i])
          && Enabled(states[i], moves[i].0, moves[i].1)
          && states[i + 1] == Step(states[i], moves[i].0, moves[i].1))
  }

  ghost predicate Reachable(s: Queue) {
    exists states, moves :: Run(states, moves) && s == states[|moves|]
  }

  lemma {:induction false} RunInv(states: seq<Queue>, moves: seq<(Tid, Action)>, i: nat)
    requires Run(states, moves) && i <= |moves|
    ensures Inv(states[i])
  {
    hide Created, Step, Shaped, Inv;
    if i == 0 {
      CreatedInv(states[0]);
    } else {
      RunInv(states, moves, i - 1);
      StepInv(states[i - 1], moves[i - 1].0, moves[i - 1].1);
    }
  }

  lemma ReachableInv(s: Queue)
    requires Reachable(s)
    ensures Inv(s)
  {
    var states, moves :| Run(states, moves) && s == states[|moves|];
    RunInv(states, moves, |moves|);
  }

  // ----- What it is for -----

  /** Tokens are conserved: free, held and owed ones always add up to the capacity. */
  lemma TokenConservation(s: Queue)
    requires Reachable(s)
    ensures |s.parked| == |s.pcs|
    ensures s.spaces.count + Tally(s, HoldsSpace) + Tally(s, OwesSpace)
          + s.items.count + Tally(s, HoldsItem) + Tally(s, OwesItem) == s.ring.capacity
  {
    ReachableInv(s);
  }

  /** The counter never leaves [0, capacity], and whenever nobody stands between the
      index and the counter update it is the distance from head to tail. */
  lemma CountBounds(s: Queue)
    requires Reachable(s)
    ensures 0 <= s.ring.count <= s.ring.capacity
    ensures s.ring.capacity > 0
    ensures (forall t :: 0 <= t < |s.pcs| ==> s.pcs[t].Idle? || s.pcs[t].at != Count) ==>
              s.ring.tail == (s.ring.head + s.ring.count) % s.ring.capacity
  {
    hide CopiesOk, LogsOk, QueuesOk;
    ReachableInv(s);
    var r := s.ring;
    var lag := OwnerLag(s.lock, s.pcs);
    if lag != 0 {
      var t := s.lock.owner.value;
      TallyUpdate(s, s, t, RoleOf(s.pcs[t], s.parked[t]));
    } else {
      ModAdd(|r.taken|, r.count, r.capacity);
    }
  }

  lemma ModAdd(i: nat, c: nat, n: nat)
    requires n > 0
    ensures (i % n + c) % n == (i + c) % n
  {
    DivMod(i + c, n, i / n + (i % n + c) / n, (i % n + c) % n);
  }

  /** rtos_sem_signal never meets a full semaphore here: no token is dropped. */
  lemma NoTokenDropped(s: Queue, t: Tid)
    requires Reachable(s) && Enabled(s, t, Continue) && s.pcs[t].at == Signal
    ensures var sem := if s.pcs[t].sending then s.items else s.spaces;
            sem.waiters != [] || sem.count < sem.max
  {
    ReachableInv(s);
    TallyUpdate(s, s, t, RoleOf(s.pcs[t], s.parked[t]));
  }

  /** The items taken out are the items put in, in that order; and what the calls of a
      task reported is its share of them, up to the one call it is still inside. */
  lemma FifoDelivery(s: Queue)
    requires Reachable(s)
    ensures |s.ring.taken| <= |s.ring.sent|
    ensures forall i :: 0 <= i < |s.ring.taken| ==> s.ring.taken[i].1 == s.ring.sent[i].1
    ensures |s.accepted| == |s.returned| == |s.pcs|
    ensures forall t :: 0 <= t < |s.pcs| ==>
      && Share(s.ring.sent, t) == s.accepted[t] + InFlight(s.pcs[t], true)
      && Share(s.ring.taken, t) == s.returned[t] + InFlight(s.pcs[t], false)
  {
    ReachableInv(s);
    forall t | 0 <= t < |s.pcs|
      ensures Share(s.ring.sent, t) == s.accepted[t] + InFlight(s.pcs[t], true)
      ensures Share(s.ring.taken, t) == s.returned[t] + InFlight(s.pcs[t], false)
    {
      assert LogOk(s, t);
    }
  }

  /** At most one task touches the ring at a time. */
  lemma MutualExclusion(s: Queue, t: Tid, u: Tid)
    requires Reachable(s) && t < |s.pcs| && u < |s.pcs|
    requires |s.parked| == |s.pcs|
    requires s.parked[t] == None && Critical(s.pcs[t]) && s.parked[u] == None && Critical(s.pcs[u])
    ensures t == u
  {
    ReachableInv(s);
  }

  /** Deadlock freedom: when no call in progress can move, the buffer is full and only
      senders wait, or it is empty and only receivers wait. */
  lemma NoDeadlock(s: Queue)
    requires Reachable(s)
    requires forall t :: 0 <= t < |s.pcs| && s.pcs[t] != Idle ==> !Enabled(s, t, Continue)
    ensures |s.parked| == |s.pcs|
    ensures || (&& s.ring.count == s.ring.capacity
                && forall t :: 0 <= t < |s.pcs| ==> s.parked[t] in {None, Some(OnSpaces)})
            || (s.ring.count == 0 && forall t :: 0 <= t < |s.pcs| ==> s.parked[t] in {None, Some(OnItems)})
            || (forall t :: 0 <= t < |s.pcs| ==> s.pcs[t] == Idle)
  {
    hide CopiesOk, LogsOk;
    ReachableInv(s);
    forall i | 0 <= i < |s.pcs| ensures RoleOf(s.pcs[i], s.parked[i]) == Bystander {
      SomeoneMoves(s, i);
    }
    forall r | r != Bystander ensures Tally(s, r) == 0 {
      assert r !in Roles(s.pcs, s.parked);
    }
    assert s.spaces.count + s.items.count == s.ring.capacity;
    if s.spaces.waiters != [] {
      assert s.items.waiters == [];
    }
  }

  /** A task with a token can move, or else the owner of the mutex can. */
  lemma SomeoneMoves(s: Queue, t: Tid)
    requires Inv(s) && t < |s.pcs|
    ensures || RoleOf(s.pcs[t], s.parked[t]) == Bystander
            || Enabled(s, t, Continue)
            || (s.lock.owner.Some? && Enabled(s, s.lock.owner.value, Continue))
  {
    hide CopiesOk, LogsOk, TokensOk;
  }

  // ----- Progress -----

  /** How many steps a call still takes: three in front of the copy, one for each byte, and four. */
  function Left(pc: Pc, itemSize: nat): int {
    match pc
    case Idle => 0
    case Busy(_, at, _, _, k) =>
      match at
      case Wait => itemSize + 6
      case Lock => itemSize + 5
      case Copy => itemSize - k + 4
      case Count => 3
      case Unlock => 2
      case Signal => 1
  }

  /** Every step of a call brings it one step nearer to its end, parked or not; only a call that does
      not wait ends early, when there is no token. Nobody else's call moves. */
  lemma CallProgress(s: Queue, t: Tid)
    requires Inv(s) && Enabled(s, t, Continue)
    ensures var s' := Step(s, t, Continue); var pc := s.pcs[t];
      && |s'.pcs| == |s.pcs| && (forall u :: 0 <= u < |s.pcs| && u != t ==> s'.pcs[u] == s.pcs[u])
      && (if pc.at == Wait && pc.try && (if pc.sending then s.spaces else s.items).count <= 0
          then s'.pcs[t] == Idle
          else Left(s'.pcs[t], s.ring.itemSize) == Left(pc, s.ring.itemSize) - 1)
      && (s'.pcs[t] != Idle ==> s'.pcs[t].sending == pc.sending && s'.pcs[t].try == pc.try)
  {
    hide QueuesOk, OwnerOk, TokensOk, RingOk, CopiesOk, LogsOk, CopyIn, AdvanceTail, AdvanceHead, RingShaped;
    assert PcOk(s.pcs[t], s.parked[t], s.ring.itemSize);
    match s.pcs[t].at
    case Wait => assert Step(s, t, Continue) == StepWait(s, t);
    case Lock => assert Step(s, t, Continue) == StepLock(s, t);
    case Copy => assert Step(s, t, Continue) == StepCopy(s, t);
    case Count => assert Step(s, t, Continue) == StepCount(s, t);
    case Unlock => assert Step(s, t, Continue) == StepUnlock(s, t);
    case Signal => assert Step(s, t, Continue) == StepSignal(s, t);
  }

  /** A call begins with all its steps in front of it, with the caller's item, and changes nothing else. */
  lemma CallBegins(s: Queue, t: Tid, sending: bool, data: Item, try: bool)
    requires Shaped(s) && Enabled(s, t, Begin(sending, data, try))
    ensures var s' := Step(s, t, Begin(sending, data, try));
      && s' == s.(pcs := s'.pcs) && |s'.pcs| == |s.pcs|
      && (forall u :: 0 <= u < |s.pcs| && u != t ==> s'.pcs[u] == s.pcs[u])
      && s'.pcs[t].Busy? && s'.pcs[t].sending == sending && s'.pcs[t].try == try && s'.pcs[t].data == data
      && Left(s'.pcs[t], s.ring.itemSize) == s.ring.itemSize + 6
  {
    hide Shaped;
  }

  /** A call that comes to its end reports the item that it has moved, after as many steps as there
      are bytes and six more. */
  lemma CallReports(s: Queue, t: Tid)
    requires Inv(s) && Enabled(s, t, Continue) && Left(s.pcs[t], s.ring.itemSize) == 1
    ensures var s' := Step(s, t, Continue); var pc := s.pcs[t];
      && s'.pcs[t] == Idle && |s'.accepted| == |s'.returned| == |s.pcs|
      && s'.accepted[t] == s.accepted[t] + (if pc.sending then [pc.data] else [])
      && s'.returned[t] == s.returned[t] + (if pc.sending then [] else [pc.data])
  {
    hide QueuesOk, OwnerOk, TokensOk, RingOk, CopiesOk, LogsOk, SemSignal;
    assert PcOk(s.pcs[t], s.parked[t], s.ring.itemSize);
    assert Step(s, t, Continue) == StepSignal(s, t);
  }

  /** A queue of any size over any buffer begins empty, with all its space free. */
  lemma CreatedEmpty(capacity: nat, itemSize: nat, buffer: seq<Item>, n: nat)
    requires capacity >= 1 && itemSize >= 1 && |buffer| == capacity
    requires forall i :: 0 <= i < capacity ==> |buffer[i]| == itemSize
    ensures Created(Queue(Ring(capacity, itemSize, buffer, 0, 0, 0, [], []),
                          Sem(capacity, capacity, []), Sem(0, capacity, []), Mutex(false, 0, None, []),
                          seq(n, _ => Idle), seq(n, _ => None), seq(n, _ => []), seq(n, _ => [])))
  {
  }
}
