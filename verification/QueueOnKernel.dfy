/**
  A message queue in the scheduled kernel: its two semaphores and its mutex are kernel objects,
  and its code runs as the current task. Every run of the kernel is a run of the queue, so what
  holds for all interleavings of the queue holds under the scheduler.
 */
module QueueOnKernel {
  import opened Prelude
  import opened SyncObjects
  import opened Scheduler
  import opened Fairness
  import Q = MessageQueue

  /** Which kernel objects the queue uses. */
  datatype Objects = Objects(spaces: nat, items: nat, lock: nat)

  datatype World = World(sys: Sys, queue: Q.Queue)

  /** The kernel does something else, or the current task does its next step in the queue. */
  datatype Move = Other(step: Step) | Transfer(a: Q.Action)

  /** A call on an object of the queue. */
  predicate Touches(step: Step, o: Objects) {
    match step
    case WaitSem(i, _) => i == o.spaces || i == o.items
    case SignalSem(i) => i == o.spaces || i == o.items
    case LockMutex(i, _) => i == o.lock
    case UnlockMutex(i) => i == o.lock
    case _ => false
  }

  /** A task inside a queue call makes no other call; it may be interrupted at any point. */
  ghost predicate Possible(w: World, o: Objects, move: Move) {
    var c := w.sys.current;
    && c < |w.sys.tasks| == |w.queue.pcs|
    && match move
       case Other(step) =>
         && Enabled(w.sys, step) && !Touches(step, o)
         && (step.Tick? || step.Yield? || w.queue.pcs[c] == Q.Idle)
       case Transfer(a) =>
         && Runnable(w.sys.tasks[c]) && c != w.sys.idle
         && match a
            case Begin(_, data, _) => w.queue.pcs[c] == Q.Idle && |data| == w.queue.ring.itemSize
            case Continue => w.queue.pcs[c] != Q.Idle
  }

  /** The kernel call of a step in the queue, if it is one. */
  function CallOf(pc: Q.Pc, o: Objects, a: Q.Action): Option<Step> {
    if a.Begin? || pc.Idle? then None
    else
      match pc.at
      case Wait => Some(WaitSem(if pc.sending then o.spaces else o.items, pc.try))
      case Lock => Some(LockMutex(o.lock, false))
      case Copy => None
      case Count => None
      case Unlock => Some(UnlockMutex(o.lock))
      case Signal => Some(SignalSem(if pc.sending then o.items else o.spaces))
  }

  ghost function SysAfter(s: Sys, call: Option<Step>): Sys {
    if call.Some? && Enabled(s, call.value) then Next(s, call.value) else s
  }

  ghost function QueueAfter(q: Q.Queue, c: Tid, a: Q.Action): Q.Queue {
    if Q.Shaped(q) && Q.Enabled(q, c, a) then Q.Step(q, c, a) else q
  }

  ghost function After(w: World, o: Objects, move: Move): World
    requires Possible(w, o, move)
  {
    match move
    case Other(step) => w.(sys := Next(w.sys, step))
    case Transfer(a) =>
      World(SysAfter(w.sys, CallOf(w.queue.pcs[w.sys.current], o, a)), QueueAfter(w.queue, w.sys.current, a))
  }

  // ----- Both sides together -----

  /** The objects of the queue are those of the kernel. */
  ghost predicate Joined(w: World, o: Objects) {
    && o.spaces < |w.sys.sems| && o.items < |w.sys.sems| && o.spaces != o.items && o.lock < |w.sys.mutexes|
    && w.sys.sems[o.spaces] == w.queue.spaces && w.sys.sems[o.items] == w.queue.items
    && w.sys.mutexes[o.lock] == w.queue.lock
    && |w.queue.pcs| == |w.queue.parked| == |w.sys.tasks|
    && w.sys.idle < |w.sys.tasks| && w.queue.pcs[w.sys.idle] == Q.Idle
  }

  /** A call in progress that is not parked can run. */
  ghost predicate CallsReady(tasks: seq<Task>, pcs: seq<Q.Pc>, parked: seq<Option<Q.Place>>) {
    && |pcs| == |parked| == |tasks|
    && forall t :: 0 <= t < |tasks| && pcs[t] != Q.Idle && parked[t] == None ==> Runnable(tasks[t])
  }

  ghost predicate Good(w: World, o: Objects) {
    && Inv(w.sys) && Q.Inv(w.queue) && Joined(w, o)
    && CallsReady(w.sys.tasks, w.queue.pcs, w.queue.parked)
  }

  function ObjectOf(o: Objects, place: Q.Place): WaitObject {
    match place
    case OnSpaces => SemObj(o.spaces)
    case OnItems => SemObj(o.items)
    case OnLock => MutexObj(o.lock)
  }

  /** The kernel has a task blocked on an object exactly if the queue has it parked there. */
  lemma ParkedExactly(w: World, o: Objects, t: Tid, place: Q.Place)
    requires Inv(w.sys) && Q.Inv(w.queue) && Joined(w, o) && t < |w.sys.tasks|
    ensures w.queue.parked[t] == Some(place) <==> BlockedOn(w.sys.tasks[t], ObjectOf(o, place))
  {
    hide TableOk, WaitsOk, Q.TokensOk, Q.RingOk, Q.CopiesOk, Q.LogsOk, Q.OwnerOk, Q.PcsOk, Q.Shaped;
    match place
    case OnSpaces => SameTasks(w.queue.spaces.waiters, place, w.queue.parked, ObjectOf(o, place), w.sys.tasks, t);
    case OnItems => SameTasks(w.queue.items.waiters, place, w.queue.parked, ObjectOf(o, place), w.sys.tasks, t);
    case OnLock => SameTasks(w.queue.lock.waiters, place, w.queue.parked, ObjectOf(o, place), w.sys.tasks, t);
  }

  lemma SameTasks(q: seq<Tid>, place: Q.Place, parked: seq<Option<Q.Place>>, obj: WaitObject, tasks: seq<Task>, t: Tid)
    requires Q.QueueOk(q, place, parked) && WaitersOk(q, obj, tasks) && t < |parked| == |tasks|
    ensures parked[t] == Some(place) <==> BlockedOn(tasks[t], obj)
  {
  }

  /** So a task that can run is parked nowhere. */
  lemma RunnableUnparked(w: World, o: Objects, t: Tid)
    requires Inv(w.sys) && Q.Inv(w.queue) && Joined(w, o) && t < |w.sys.tasks| && Runnable(w.sys.tasks[t])
    ensures w.queue.parked[t] == None
  {
    hide Inv, Q.Inv;
    if w.queue.parked[t].Some? { ParkedExactly(w, o, t, w.queue.parked[t].value); }
  }

  // ----- Who stays runnable -----

  lemma ScheduleKeeps(s: Sys, tick: bool, t: Tid)
    requires TableOk(s.tasks, s.current, s.idle) && t < |s.tasks| && Runnable(s.tasks[t])
    ensures var s' := Schedule(s, tick); |s'.tasks| == |s.tasks| && Runnable(s'.tasks[t])
  {
    var t0 := if tick then TickAll(s.tasks) else s.tasks;
    var t1 := Charged(t0, s.current);
    ChargedTable(s.tasks, s.current, s.idle, tick);
    assert Runnable(t0[t]);
    hide Pick, TableOk, SameBlocked, Charged, TickAll, AfterPick, Dispatch;
    ChargedRunnable(t0, s.current, t);
    DecidedRunnable(t1, s.current, s.idle, s.last, t);
  }

  lemma BlockKeeps(s: Sys, obj: WaitObject, t: Tid)
    requires TableOk(s.tasks, s.current, s.idle) && s.current != s.idle
    requires t < |s.tasks| && t != s.current && Runnable(s.tasks[t])
    ensures var s' := Block(s, s.current, obj); |s'.tasks| == |s.tasks| && Runnable(s'.tasks[t])
  {
    var c := s.current;
    var u := s.tasks[c].(state := Blocked, waitObject := Some(obj));
    assert TaskOk(s.tasks[c]) && TaskOk(u) && s.tasks[c].state != Unused;
    hide TableOk, Schedule, TaskCount;
    OneChange(s.tasks, c, s.idle, c, u);
    ScheduleKeeps(s.(tasks := s.tasks[c := u]), false, t);
  }

  lemma UnblockKeeps(s: Sys, w: Option<Tid>, t: Tid)
    requires TableOk(s.tasks, s.current, s.idle) && t < |s.tasks| && Runnable(s.tasks[t])
    requires w.Some? ==> w.value < |s.tasks| && s.tasks[w.value].state == Blocked
    ensures var s' := Unblock(s, w); |s'.tasks| == |s.tasks| && Runnable(s'.tasks[t])
  {
    if w.Some? {
      hide TableOk, Schedule;
      ReadiedTable(s.tasks, s.current, s.idle, w.value);
      ScheduleKeeps(s.(tasks := s.tasks[w.value := Readied(s.tasks[w.value])]), false, t);
    }
  }

  /** The current task stops: it is parked, asleep or gone. */
  predicate Stops(s: Sys, step: Step)
    requires Enabled(s, step)
  {
    match step
    case WaitSem(i, try) => SemWait(s.sems[i], s.current, try).1 == Parked
    case LockMutex(i, try) => MutexLock(s.mutexes[i], s.current, try).1 == Parked
    case WaitEvent(_, _, _) => true
    case Delay(_) => true
    case Exit => true
    case _ => false
  }

  /** No step takes the processor's readiness from anybody but a current task that stops. */
  lemma StaysRunnable(s: Sys, step: Step, t: Tid)
    requires Inv(s) && Enabled(s, step) && t < |s.tasks| && Runnable(s.tasks[t]) && (t == s.current ==> !Stops(s, step))
    ensures var s' := Next(s, step); |s'.tasks| == |s.tasks| && Runnable(s'.tasks[t])
  {
    match step
    case Tick => ScheduleKeeps(s, true, t);
    case Yield => ScheduleKeeps(s, false, t);
    case WaitSem(i, try) => WaitKeeps(s, i, try, t);
    case SignalSem(i) => SignalKeeps(s, i, t);
    case LockMutex(i, try) => LockKeeps(s, i, try, t);
    case UnlockMutex(i) => UnlockKeeps(s, i, t);
    case _ => hide Schedule, Inv;
  }

  lemma WaitKeeps(s: Sys, i: nat, try: bool, t: Tid)
    requires Inv(s) && Enabled(s, WaitSem(i, try)) && t < |s.tasks| && Runnable(s.tasks[t])
    requires t == s.current ==> !Stops(s, WaitSem(i, try))
    ensures var s' := SemWaitCall(s, i, try); |s'.tasks| == |s.tasks| && Runnable(s'.tasks[t])
  {
    hide SemsOk, MutexesOk, WaitsOk, TableOk, Block;
    var (sem, outcome) := SemWait(s.sems[i], s.current, try);
    if outcome == Parked { BlockKeeps(s.(sems := s.sems[i := sem]), SemObj(i), t); }
  }

  lemma SignalKeeps(s: Sys, i: nat, t: Tid)
    requires Inv(s) && Enabled(s, SignalSem(i)) && t < |s.tasks| && Runnable(s.tasks[t])
    ensures var s' := SemSignalCall(s, i); |s'.tasks| == |s.tasks| && Runnable(s'.tasks[t])
  {
    HeadBlocked(s);
    hide SemsOk, MutexesOk, WaitsOk, TableOk, Unblock;
    var (sem, w) := SemSignal(s.sems[i]);
    UnblockKeeps(s.(sems := s.sems[i := sem]), w, t);
  }

  lemma LockKeeps(s: Sys, i: nat, try: bool, t: Tid)
    requires Inv(s) && Enabled(s, LockMutex(i, try)) && t < |s.tasks| && Runnable(s.tasks[t])
    requires t == s.current ==> !Stops(s, LockMutex(i, try))
    ensures var s' := MutexLockCall(s, i, try); |s'.tasks| == |s.tasks| && Runnable(s'.tasks[t])
  {
    InheritInv(s, s.mutexes[i].owner);
    hide SemsOk, MutexesOk, WaitsOk, TableOk, Block;
    var (m, outcome) := MutexLock(s.mutexes[i], s.current, try);
    if outcome == Parked {
      var tasks := Inherit(s.tasks, s.mutexes[i].owner, s.current);
      BlockKeeps(s.(mutexes := s.mutexes[i := m], tasks := tasks), MutexObj(i), t);
    }
  }

  lemma UnlockKeeps(s: Sys, i: nat, t: Tid)
    requires Inv(s) && Enabled(s, UnlockMutex(i)) && t < |s.tasks| && Runnable(s.tasks[t])
    ensures var s' := MutexUnlockCall(s, i); |s'.tasks| == |s.tasks| && Runnable(s'.tasks[t])
  {
    ResetInv(s);
    hide SemsOk, MutexesOk, WaitsOk, TableOk, Unblock;
    var reset := s.(tasks := ResetPriority(s.tasks, s.current));
    HeadBlocked(reset);
    var (m, w) := MutexUnlock(s.mutexes[i], s.current);
    UnblockKeeps(reset.(mutexes := s.mutexes[i := m]), w, t);
  }

  // ----- Every move keeps both sides together -----

  /** What the current task does next in the queue is always possible there. */
  lemma TransferEnabled(w: World, o: Objects, a: Q.Action)
    requires Good(w, o) && Possible(w, o, Transfer(a))
    ensures Q.Shaped(w.queue) && Q.Enabled(w.queue, w.sys.current, a)
    ensures var call := CallOf(w.queue.pcs[w.sys.current], o, a); call.Some? ==> Enabled(w.sys, call.value)
  {
    RunnableUnparked(w, o, w.sys.current);
    hide Inv, Q.Shaped, Q.PcsOk, Q.QueuesOk, Q.OwnerOk, Q.TokensOk, Q.RingOk, Q.CopiesOk, Q.LogsOk;
    InvTable(w.sys);
  }

  lemma InvTable(s: Sys)
    requires Inv(s)
    ensures s.current < |s.tasks| && s.idle < |s.tasks|
  {
    hide SemsOk, MutexesOk, WaitsOk, Prefix;
  }

  /** The objects of the queue after its step. */
  ghost predicate SameObjects(s: Sys, o: Objects, q: Q.Queue) {
    && o.spaces < |s.sems| && o.items < |s.sems| && o.lock < |s.mutexes|
    && s.sems[o.spaces] == q.spaces && s.sems[o.items] == q.items && s.mutexes[o.lock] == q.lock
  }

  lemma TransferObjects(w: World, o: Objects, a: Q.Action)
    requires Joined(w, o) && Q.Shaped(w.queue) && Q.Enabled(w.queue, w.sys.current, a)
    requires var call := CallOf(w.queue.pcs[w.sys.current], o, a); call.Some? ==> Enabled(w.sys, call.value)
    ensures var call := CallOf(w.queue.pcs[w.sys.current], o, a);
      var s' := if call.Some? then Next(w.sys, call.value) else w.sys;
      SameObjects(s', o, Q.Step(w.queue, w.sys.current, a))
  {
    hide Next, Q.Shaped, SemWait, SemSignal, MutexLock, MutexUnlock, Q.CopyIn, Q.AdvanceTail, Q.AdvanceHead, Q.Woken;
    var call := CallOf(w.queue.pcs[w.sys.current], o, a);
    if call.Some? { StepObjects(w.sys, call.value); }
  }

  /** Only the caller and a task that it wakes change their place in the queue. */
  lemma StepFrame(q: Q.Queue, c: Tid, a: Q.Action, t: Tid)
    requires Q.Shaped(q) && Q.Enabled(q, c, a) && t < |q.pcs| && t != c
    ensures var q' := Q.Step(q, c, a);
      && |q'.pcs| == |q'.parked| == |q.pcs| && q'.pcs[t] == q.pcs[t]
      && (q'.parked[t] == q.parked[t] || (q'.parked[t] == None && WokenBy(q, c, a) == Some(t)))
  {
    hide Q.CopyIn, Q.AdvanceTail, Q.AdvanceHead, Q.RingShaped, Q.PcShaped, SemWait, SemSignal, MutexLock, MutexUnlock;
    if a.Continue? {
      match q.pcs[c].at
      case Wait => assert Q.Step(q, c, a) == Q.StepWait(q, c);
      case Lock => assert Q.Step(q, c, a) == Q.StepLock(q, c);
      case Copy => assert Q.Step(q, c, a) == Q.StepCopy(q, c);
      case Count => assert Q.Step(q, c, a) == Q.StepCount(q, c);
      case Unlock => assert Q.Step(q, c, a) == Q.StepUnlock(q, c);
      case Signal => assert Q.Step(q, c, a) == Q.StepSignal(q, c);
    }
  }

  /** The task that a step of the queue wakes. */
  ghost function WokenBy(q: Q.Queue, c: Tid, a: Q.Action): Option<Tid>
    requires Q.Enabled(q, c, a)
  {
    if a.Begin? then None
    else
      match q.pcs[c].at
      case Unlock => MutexUnlock(q.lock, c).1
      case Signal => SemSignal(if q.pcs[c].sending then q.items else q.spaces).1
      case _ => None
  }

  /** It can run. */
  lemma WokenRuns(w: World, o: Objects, a: Q.Action, t: Tid)
    requires Good(w, o) && Q.Enabled(w.queue, w.sys.current, a) && WokenBy(w.queue, w.sys.current, a) == Some(t)
    requires CallOf(w.queue.pcs[w.sys.current], o, a).Some?
    requires Enabled(w.sys, CallOf(w.queue.pcs[w.sys.current], o, a).value)
    ensures var s' := Next(w.sys, CallOf(w.queue.pcs[w.sys.current], o, a).value);
      t < |s'.tasks| && Runnable(s'.tasks[t])
  {
    var pc := w.queue.pcs[w.sys.current];
    var call := CallOf(pc, o, a).value;
    hide Inv, Q.Inv, CallsReady, Next;
    if pc.at == Q.Unlock {
      HeadIsServed(w.sys, call, MutexObj(o.lock));
    } else {
      HeadIsServed(w.sys, call, SemObj(if pc.sending then o.items else o.spaces));
    }
  }

  /** A caller that stays in its call and is not parked was not stopped. */
  lemma CallerRuns(w: World, o: Objects, a: Q.Action)
    requires Good(w, o) && Possible(w, o, Transfer(a))
    requires Q.Shaped(w.queue) && Q.Enabled(w.queue, w.sys.current, a)
    requires CallOf(w.queue.pcs[w.sys.current], o, a).Some?
    requires Enabled(w.sys, CallOf(w.queue.pcs[w.sys.current], o, a).value)
    ensures var q' := Q.Step(w.queue, w.sys.current, a); var c := w.sys.current;
      c < |q'.parked| && (q'.parked[c] == None ==> !Stops(w.sys, CallOf(w.queue.pcs[c], o, a).value))
  {
    hide Inv, Q.Inv, CallsReady, Next, Q.Shaped;
  }

  lemma TransferReady(w: World, o: Objects, a: Q.Action)
    requires Good(w, o) && Possible(w, o, Transfer(a))
    ensures var w' := After(w, o, Transfer(a)); CallsReady(w'.sys.tasks, w'.queue.pcs, w'.queue.parked)
  {
    TransferEnabled(w, o, a);
    var c := w.sys.current;
    var call := CallOf(w.queue.pcs[c], o, a);
    var q, q' := w.queue, Q.Step(w.queue, c, a);
    var s' := if call.Some? then Next(w.sys, call.value) else w.sys;
    assert After(w, o, Transfer(a)) == World(s', q');
    hide Inv, Q.Inv, Next, Q.Step, Q.Shaped;
    StepLengths(q, c, a);
    if call.Some? { TaskSlots(w.sys, call.value); }
    forall t | 0 <= t < |q.pcs| && q'.pcs[t] != Q.Idle && q'.parked[t] == None ensures Runnable(s'.tasks[t]) {
      TaskReady(w, o, a, t);
    }
  }

  lemma StepLengths(q: Q.Queue, c: Tid, a: Q.Action)
    requires Q.Shaped(q) && Q.Enabled(q, c, a)
    ensures var q' := Q.Step(q, c, a); |q'.pcs| == |q'.parked| == |q.pcs|
    ensures WokenBy(q, c, a).Some? ==> !a.Begin? && q.pcs[c].at in {Q.Unlock, Q.Signal}
  {
    hide Q.CopyIn, Q.AdvanceTail, Q.AdvanceHead, Q.Shaped, SemWait, SemSignal, MutexLock, MutexUnlock;
  }

  lemma TaskSlots(s: Sys, step: Step)
    requires Enabled(s, step)
    ensures |Next(s, step).tasks| == |s.tasks| && Next(s, step).idle == s.idle
  {
    hide Schedule, Block, Unblock;
    match step
    case Tick => ScheduleSlots(s, true);
    case Yield => ScheduleSlots(s, false);
    case WaitSem(i, try) =>
      BlockSlots(s.(sems := s.sems[i := SemWait(s.sems[i], s.current, try).0]), SemObj(i));
    case SignalSem(i) =>
      var (sem, w) := SemSignal(s.sems[i]);
      UnblockSlots(s.(sems := s.sems[i := sem]), w);
    case LockMutex(i, try) =>
      var tasks := Inherit(s.tasks, s.mutexes[i].owner, s.current);
      BlockSlots(s.(mutexes := s.mutexes[i := MutexLock(s.mutexes[i], s.current, try).0], tasks := tasks), MutexObj(i));
    case UnlockMutex(i) =>
      var (m, w) := MutexUnlock(s.mutexes[i], s.current);
      UnblockSlots(s.(mutexes := s.mutexes[i := m], tasks := ResetPriority(s.tasks, s.current)), w);
    case _ =>
  }

  lemma BlockSlots(s: Sys, obj: WaitObject)
    requires s.current < |s.tasks| && s.idle < |s.tasks|
    ensures var s' := Block(s, s.current, obj); |s'.tasks| == |s.tasks| && s'.idle == s.idle
  {
    hide Schedule;
    var u := s.tasks[s.current].(state := Blocked, waitObject := Some(obj));
    ScheduleSlots(s.(tasks := s.tasks[s.current := u]), false);
  }

  lemma UnblockSlots(s: Sys, w: Option<Tid>)
    requires s.current < |s.tasks| && s.idle < |s.tasks|
    ensures var s' := Unblock(s, w); |s'.tasks| == |s.tasks| && s'.idle == s.idle
  {
    hide Schedule;
    if w.Some? && w.value < |s.tasks| {
      ScheduleSlots(s.(tasks := s.tasks[w.value := Readied(s.tasks[w.value])]), false);
    }
  }

  lemma ScheduleSlots(s: Sys, tick: bool)
    requires s.current < |s.tasks| && s.idle < |s.tasks|
    ensures |Schedule(s, tick).tasks| == |s.tasks| && Schedule(s, tick).idle == s.idle
  {
    hide Pick;
  }

  lemma TaskReady(w: World, o: Objects, a: Q.Action, t: Tid)
    requires Good(w, o) && Possible(w, o, Transfer(a)) && t < |w.queue.pcs|
    requires Q.Shaped(w.queue) && Q.Enabled(w.queue, w.sys.current, a)
    requires var q' := Q.Step(w.queue, w.sys.current, a);
      t < |q'.pcs| && t < |q'.parked| && q'.pcs[t] != Q.Idle && q'.parked[t] == None
    requires var call := CallOf(w.queue.pcs[w.sys.current], o, a); call.Some? ==> Enabled(w.sys, call.value)
    ensures var call := CallOf(w.queue.pcs[w.sys.current], o, a);
      var s' := if call.Some? then Next(w.sys, call.value) else w.sys;
      t < |s'.tasks| && Runnable(s'.tasks[t])
  {
    hide Inv, Q.Inv, Next, Q.Step, Q.Shaped, Stops;
    var c := w.sys.current;
    var call := CallOf(w.queue.pcs[c], o, a);
    StepLengths(w.queue, c, a);
    if t == c {
      if call.Some? {
        CallerRuns(w, o, a);
        StaysRunnable(w.sys, call.value, t);
      }
    } else {
      StepFrame(w.queue, c, a, t);
      if WokenBy(w.queue, c, a) == Some(t) {
        WokenRuns(w, o, a, t);
      } else if call.Some? {
        StaysRunnable(w.sys, call.value, t);
      }
    }
  }

  lemma TransferGood(w: World, o: Objects, a: Q.Action)
    requires Good(w, o) && Possible(w, o, Transfer(a))
    ensures Good(After(w, o, Transfer(a)), o)
  {
    TransferEnabled(w, o, a);
    TransferReady(w, o, a);
    var c := w.sys.current;
    var call := CallOf(w.queue.pcs[c], o, a);
    hide Inv, Q.Inv, Next, Q.Step, Q.Shaped, CallsReady;
    TransferObjects(w, o, a);
    Q.StepInv(w.queue, c, a);
    StepLengths(w.queue, c, a);
    if call.Some? {
      StepInv(w.sys, call.value);
      TaskSlots(w.sys, call.value);
    }
    StepFrame(w.queue, c, a, w.sys.idle);
  }

  /** Anything else leaves the queue and its objects alone. */
  lemma OtherGood(w: World, o: Objects, step: Step)
    requires Good(w, o) && Possible(w, o, Other(step))
    ensures Good(After(w, o, Other(step)), o)
  {
    hide Inv, Q.Inv, Next, Stops;
    StepInv(w.sys, step);
    StepObjects(w.sys, step);
    TaskSlots(w.sys, step);
    var s' := Next(w.sys, step);
    forall t | 0 <= t < |w.sys.tasks| && w.queue.pcs[t] != Q.Idle && w.queue.parked[t] == None
      ensures Runnable(s'.tasks[t])
    {
      if t == w.sys.current { NeverStops(w.sys, step); }
      StaysRunnable(w.sys, step, t);
    }
  }

  lemma NeverStops(s: Sys, step: Step)
    requires Enabled(s, step) && (step.Tick? || step.Yield?)
    ensures !Stops(s, step)
  {
  }

  lemma MoveGood(w: World, o: Objects, move: Move)
    requires Good(w, o) && Possible(w, o, move)
    ensures Good(After(w, o, move), o)
  {
    hide Good, Possible, After;
    match move
    case Other(step) => OtherGood(w, o, step);
    case Transfer(a) => TransferGood(w, o, a);
  }

  /** What a move does: anything else is a step of the kernel and leaves the queue alone; a step in
      the queue is one of the queue, and of the kernel the call that the code makes there. */
  lemma MoveExactly(w: World, o: Objects, move: Move)
    requires Good(w, o) && Possible(w, o, move)
    ensures move.Other? ==> After(w, o, move) == World(Next(w.sys, move.step), w.queue)
    ensures move.Transfer? ==>
      var c, w' := w.sys.current, After(w, o, move); var pc := w.queue.pcs[c];
      && Q.Shaped(w.queue) && Q.Enabled(w.queue, c, move.a) && w'.queue == Q.Step(w.queue, c, move.a)
      && (if move.a.Begin? || pc.at == Q.Copy || pc.at == Q.Count then w'.sys == w.sys
          else exists step :: Enabled(w.sys, step) && w'.sys == Next(w.sys, step) && CallAt(pc, o, step))
  {
    hide Good, Next, Q.Step, Q.Shaped, Enabled, Q.Enabled;
    if move.Transfer? {
      TransferEnabled(w, o, move.a);
      var call := CallOf(w.queue.pcs[w.sys.current], o, move.a);
      assert call.Some? ==> CallAt(w.queue.pcs[w.sys.current], o, call.value);
    }
  }

  /** The calls of rtos_queue_send and rtos_queue_receive, in their order. */
  predicate CallAt(pc: Q.Pc, o: Objects, step: Step) {
    && pc.Busy?
    && step == match pc.at
               case Wait => WaitSem(if pc.sending then o.spaces else o.items, pc.try)
               case Lock => LockMutex(o.lock, false)
               case Unlock => UnlockMutex(o.lock)
               case Signal => SignalSem(if pc.sending then o.items else o.spaces)
               case _ => Yield
  }

  /** Which moves there are: interrupts and yields always; a current task outside the queue makes
      every call that does not use the queue's objects; one that can run begins a call with an item
      of the right size, or goes on with its own. */
  lemma MovesPossible(w: World, o: Objects, step: Step, a: Q.Action)
    requires Good(w, o)
    ensures Possible(w, o, Other(Tick)) && Possible(w, o, Other(Yield))
    ensures w.sys.current < |w.queue.pcs| && w.sys.current < |w.sys.tasks|
    ensures w.queue.pcs[w.sys.current] == Q.Idle && Enabled(w.sys, step) ==>
      (Possible(w, o, Other(step)) <==>
         && (step.WaitSem? || step.SignalSem? ==> step.sem != o.spaces && step.sem != o.items)
         && (step.LockMutex? || step.UnlockMutex? ==> step.mutex != o.lock))
    ensures Runnable(w.sys.tasks[w.sys.current]) && w.sys.current != w.sys.idle ==>
      (Possible(w, o, Transfer(a)) <==>
         if a.Begin? then w.queue.pcs[w.sys.current] == Q.Idle && |a.data| == w.queue.ring.itemSize
         else w.queue.pcs[w.sys.current] != Q.Idle)
  {
    InvTable(w.sys);
    hide Inv, Q.Inv, CallsReady;
  }

  // ----- Every run -----

  /** A started kernel with a queue that was just created in it. */
  ghost predicate Beginning(w: World, o: Objects) {
    Inv(w.sys) && Q.Created(w.queue) && Joined(w, o)
  }

  ghost predicate Run(worlds: seq<World>, o: Objects, moves: seq<Move>) {
    && |worlds| == |moves| + 1
    && Beginning(worlds[0], o)
    && (forall i :: 0 <= i < |moves| ==>
          Possible(worlds[i], o, moves[i]) && worlds[i + 1] == After(worlds[i], o, moves[i]))
  }

  lemma BeginningGood(w: World, o: Objects)
    requires Beginning(w, o)
    ensures Good(w, o) && Q.Reachable(w.queue)
  {
    Q.CreatedInv(w.queue);
    assert CallsReady(w.sys.tasks, w.queue.pcs, w.queue.parked);
    hide Inv, Q.Inv;
    assert Q.Run([w.queue], []);
  }

  /** A step of the queue leads from a reachable state to a reachable one. */
  lemma ReachableStep(q: Q.Queue, t: Tid, a: Q.Action)
    requires Q.Reachable(q) && Q.Shaped(q) && Q.Enabled(q, t, a)
    ensures Q.Reachable(Q.Step(q, t, a))
  {
    hide Q.Shaped, Q.Created, Q.Step;
    var states: seq<Q.Queue>, moves: seq<(Tid, Q.Action)> :| Q.Run(states, moves) && q == states[|moves|];
    var states', moves' := states + [Q.Step(q, t, a)], moves + [(t, a)];
    forall i | 0 <= i < |moves'|
      ensures Q.Shaped(states'[i]) && Q.Enabled(states'[i], moves'[i].0, moves'[i].1)
      ensures states'[i + 1] == Q.Step(states'[i], moves'[i].0, moves'[i].1)
    {
      if i < |moves| { assert states[i + 1] == Q.Step(states[i], moves[i].0, moves[i].1); }
    }
    assert Q.Run(states', moves');
  }

  lemma MoveReachable(w: World, o: Objects, move: Move)
    requires Good(w, o) && Possible(w, o, move) && Q.Reachable(w.queue)
    ensures Q.Reachable(After(w, o, move).queue)
  {
    if move.Transfer? {
      TransferEnabled(w, o, move.a);
      hide Good, Q.Reachable, Q.Shaped, Q.Step, Next;
      ReachableStep(w.queue, w.sys.current, move.a);
    }
  }

  /** In every state of every run of the kernel, with whatever else its tasks do: the invariants of
      both sides hold, their objects agree, and the queue is in a state that its own transition
      system reaches; so all that is proved of those states holds under the scheduler. */
  lemma {:induction false} RunGood(worlds: seq<World>, o: Objects, moves: seq<Move>, i: nat)
    requires Run(worlds, o, moves) && i <= |moves|
    ensures Good(worlds[i], o) && Q.Reachable(worlds[i].queue)
  {
    hide Good, Q.Reachable, Possible, After, Beginning;
    if i == 0 {
      BeginningGood(worlds[0], o);
    } else {
      RunGood(worlds, o, moves, i - 1);
      assert worlds[i] == After(worlds[i - 1], o, moves[i - 1]);
      MoveGood(worlds[i - 1], o, moves[i - 1]);
      MoveReachable(worlds[i - 1], o, moves[i - 1]);
    }
  }

  // ----- What holds under the scheduler -----

  /** Delivery is first in, first out, and no token is lost. */
  lemma DeliveredInOrder(worlds: seq<World>, o: Objects, moves: seq<Move>, i: nat)
    requires Run(worlds, o, moves) && i <= |moves|
    ensures var q := worlds[i].queue;
      && |q.ring.taken| <= |q.ring.sent|
      && (forall k :: 0 <= k < |q.ring.taken| ==> q.ring.taken[k].1 == q.ring.sent[k].1)
      && |q.parked| == |q.pcs|
      && worlds[i].sys.sems != [] && o.spaces < |worlds[i].sys.sems| && o.items < |worlds[i].sys.sems|
      && worlds[i].sys.sems[o.spaces].count + Q.Tally(q, Q.HoldsSpace) + Q.Tally(q, Q.OwesSpace)
       + worlds[i].sys.sems[o.items].count + Q.Tally(q, Q.HoldsItem) + Q.Tally(q, Q.OwesItem) == q.ring.capacity
  {
    hide Inv, Q.Inv, Q.Reachable, CallsReady, Q.Tally, Possible, After;
    RunGood(worlds, o, moves, i);
    Q.FifoDelivery(worlds[i].queue);
    Q.TokenConservation(worlds[i].queue);
  }

  /** A task that is inside a queue call is blocked on one of the queue's objects or can run. */
  lemma CallBlockedOrReady(worlds: seq<World>, o: Objects, moves: seq<Move>, i: nat, t: Tid)
    requires Run(worlds, o, moves) && i <= |moves| && t < |worlds[i].queue.pcs| && worlds[i].queue.pcs[t] != Q.Idle
    ensures t < |worlds[i].sys.tasks|
    ensures var u := worlds[i].sys.tasks[t];
      || Runnable(u)
      || BlockedOn(u, SemObj(o.spaces)) || BlockedOn(u, SemObj(o.items)) || BlockedOn(u, MutexObj(o.lock))
  {
    hide Inv, Q.Inv, Q.Reachable, Possible, After;
    RunGood(worlds, o, moves, i);
    var w := worlds[i];
    if w.queue.parked[t].Some? { ParkedExactly(w, o, t, w.queue.parked[t].value); }
  }

  /** If no task inside a queue call can run, the queue is full and only senders wait, or it is
      empty and only receivers wait, or there is no such task. */
  lemma NoDeadlockUnderScheduler(worlds: seq<World>, o: Objects, moves: seq<Move>, i: nat)
    requires Run(worlds, o, moves) && i <= |moves|
    requires var q, tasks := worlds[i].queue, worlds[i].sys.tasks;
      forall t :: 0 <= t < |q.pcs| && t < |tasks| && q.pcs[t] != Q.Idle ==> !Runnable(tasks[t])
    ensures var q, tasks := worlds[i].queue, worlds[i].sys.tasks;
      || (q.ring.count == q.ring.capacity &&
          forall t :: 0 <= t < |tasks| && t < |q.pcs| && q.pcs[t] != Q.Idle ==> BlockedOn(tasks[t], SemObj(o.spaces)))
      || (q.ring.count == 0 &&
          forall t :: 0 <= t < |tasks| && t < |q.pcs| && q.pcs[t] != Q.Idle ==> BlockedOn(tasks[t], SemObj(o.items)))
      || (forall t :: 0 <= t < |q.pcs| ==> q.pcs[t] == Q.Idle)
  {
    hide Inv, Q.Inv, Q.Reachable, Possible, After;
    RunGood(worlds, o, moves, i);
    var w := worlds[i];
    Q.NoDeadlock(w.queue);
    forall t | 0 <= t < |w.sys.tasks| && w.queue.pcs[t] != Q.Idle
      ensures w.queue.parked[t].Some?
      ensures w.queue.parked[t] == Some(Q.OnSpaces) ==> BlockedOn(w.sys.tasks[t], SemObj(o.spaces))
      ensures w.queue.parked[t] == Some(Q.OnItems) ==> BlockedOn(w.sys.tasks[t], SemObj(o.items))
    {
      ParkedExactly(w, o, t, Q.OnSpaces);
      ParkedExactly(w, o, t, Q.OnItems);
    }
  }
}
