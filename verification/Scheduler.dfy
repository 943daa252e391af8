/**
  The task table, the aging picker and the system calls as a transition system over
  any number of tasks, semaphores, mutexes and event groups.  A step is a timer
  interrupt, a yield, or one region between irq_save and irq_restore run by the
  current task; a yield inside a region belongs to its step, a yield behind it is a
  step of its own.
 */
module Scheduler {
  import opened Prelude
  import opened SyncObjects

  const MAX_PRIORITY := 15

  datatype TaskState = Unused | Ready | Running | Sleeping | Blocked | Terminated

  datatype WaitObject = SemObj(sem: nat) | MutexObj(mutex: nat) | EventObj(event: nat)

  /** `mask` is the argument of the rtos_event_wait call the task is blocked in. */
  datatype Task = Task(
    state: TaskState,
    priority: int,
    base: int,
    sleep: nat,
    runtime: nat,
    waitObject: Option<WaitObject>,
    mask: bv32)

  /** `decisions` counts the runs of the picker. */
  datatype Sys = Sys(
    decisions: nat,
    tasks: seq<Task>,
    current: Tid,
    idle: Tid,
    last: nat,
    sems: seq<Sem>,
    mutexes: seq<Mutex>,
    events: seq<bv32>)

  // ----- find_next_ready_task -----

  predicate Runnable(t: Task) { t.state == Ready || t.state == Running }

  /** rtos_get_task_count. */
  function TaskCount(tasks: seq<Task>): (n: nat)
    ensures n <= |tasks|
  {
    if tasks == [] then 0
    else TaskCount(tasks[..|tasks| - 1]) + if tasks[|tasks| - 1].state == Unused then 0 else 1
  }

  /** The slot visited in round i of the scan over n tasks. */
  function Visit(last: nat, n: nat, i: nat): (x: nat)
    requires n > 0
    ensures x < n
  {
    ((last + 1) % n + i) % n
  }

  /** The best task among the first i visited: a later one must be strictly better. */
  function Best(tasks: seq<Task>, last: nat, n: nat, i: nat): Option<Tid>
    requires 0 < n <= |tasks|
  {
    if i == 0 then None
    else
      var b := Best(tasks, last, n, i - 1);
      var x := Visit(last, n, i - 1);
      if Runnable(tasks[x]) && (b.None? || b.value >= n || tasks[x].priority > tasks[b.value].priority)
      then Some(x) else b
  }

  function Pick(tasks: seq<Task>, last: nat): Option<Tid> {
    var n := TaskCount(tasks);
    if n == 0 then None else Best(tasks, last, n, n)
  }

  function Aged(t: Task): Task {
    if Runnable(t) && t.priority < MAX_PRIORITY then t.(priority := t.priority + 1) else t
  }

  /** The table after a decision for c: everyone runnable ages, the winner is reset. */
  function AfterPick(tasks: seq<Task>, c: Option<Tid>): (r: seq<Task>)
    ensures |r| == |tasks|
  {
    var aged := seq(|tasks|, i requires 0 <= i < |tasks| => Aged(tasks[i]));
    if c.Some? && c.value < |tasks| then aged[c.value := tasks[c.value].(priority := tasks[c.value].base)] else aged
  }

  // ----- rtos_schedule_from_isr -----

  function Ticked(t: Task): Task {
    if t.state == Sleeping && t.sleep > 0 then
      if t.sleep == 1 then t.(sleep := 0, state := Ready) else t.(sleep := t.sleep - 1)
    else t
  }

  function TickAll(tasks: seq<Task>): (r: seq<Task>)
    ensures |r| == |tasks|
  {
    seq(|tasks|, i requires 0 <= i < |tasks| => Ticked(tasks[i]))
  }

  /** Make `next` run. */
  function Dispatch(tasks: seq<Task>, prev: Tid, next: Tid): (r: seq<Task>)
    requires prev < |tasks| && next < |tasks|
    ensures |r| == |tasks|
  {
    if prev == next then tasks
    else
      var t1 := if tasks[prev].state == Running then tasks[prev := tasks[prev].(state := Ready)] else tasks;
      t1[next := t1[next].(state := Running)]
  }

  function Charged(tasks: seq<Task>, current: Tid): (r: seq<Task>)
    requires current < |tasks|
    ensures |r| == |tasks|
  {
    tasks[current := tasks[current].(runtime := tasks[current].runtime + 1)]
  }

  function Schedule(s: Sys, tick: bool): Sys
    requires s.current < |s.tasks| && s.idle < |s.tasks|
  {
    var t1 := Charged(if tick then TickAll(s.tasks) else s.tasks, s.current);
    var c := Pick(t1, s.last);
    var next := if c.Some? && c.value < |t1| then c.value else s.idle;
    s.(tasks := Dispatch(AfterPick(t1, c), s.current, next),
       current := next,
       last := if c.Some? then c.value else s.last,
       decisions := s.decisions + 1)
  }

  // ----- The system calls -----

  datatype Step =
    | Tick
    | Yield
    | WaitSem(sem: nat, try: bool)
    | SignalSem(sem: nat)
    | LockMutex(mutex: nat, try: bool)
    | UnlockMutex(mutex: nat)
    | WaitEvent(event: nat, mask: bv32, clear: bool)
    | SetEvent(event: nat, mask: bv32)
    | ClearEvent(event: nat, mask: bv32)
    | Delay(ticks: nat)
    | Create(priority: nat)
    | Exit

  /** rtos_task_block. */
  function Block(s: Sys, t: Tid, obj: WaitObject): Sys
    requires s.current < |s.tasks| && s.idle < |s.tasks| && t < |s.tasks|
  {
    Schedule(s.(tasks := s.tasks[t := s.tasks[t].(state := Blocked, waitObject := Some(obj))]), false)
  }

  function Readied(t: Task): Task { t.(state := Ready, waitObject := None) }

  /** rtos_task_unblock: the awakened task preempts only with a higher priority. */
  function Unblock(s: Sys, w: Option<Tid>): Sys
    requires s.current < |s.tasks| && s.idle < |s.tasks|
  {
    if w.None? || w.value >= |s.tasks| then s
    else
      var s1 := s.(tasks := s.tasks[w.value := Readied(s.tasks[w.value])]);
      if s1.tasks[w.value].priority > s1.tasks[s.current].priority then Schedule(s1, false) else s1
  }

  /** Priority inheritance: the owner gets at least the priority of the waiter. */
  function Inherit(tasks: seq<Task>, owner: Option<Tid>, t: Tid): (r: seq<Task>)
    requires t < |tasks|
    ensures |r| == |tasks|
  {
    if owner.Some? && owner.value < |tasks| && tasks[t].priority > tasks[owner.value].priority
    then tasks[owner.value := tasks[owner.value].(priority := tasks[t].priority)]
    else tasks
  }

  function ResetPriority(tasks: seq<Task>, t: Tid): (r: seq<Task>)
    requires t < |tasks|
    ensures |r| == |tasks|
  {
    tasks[t := tasks[t].(priority := tasks[t].base)]
  }

  /** The slot rtos_task_create takes: the first that is free. */
  function FreeSlot(tasks: seq<Task>, i: nat): (r: Option<nat>)
    requires i <= |tasks|
    ensures r.Some? ==> i <= r.value < |tasks| && tasks[r.value].state in {Unused, Terminated}
    ensures r.Some? ==> forall j :: i <= j < r.value ==> tasks[j].state !in {Unused, Terminated}
    ensures r.None? ==> forall j :: i <= j < |tasks| ==> tasks[j].state !in {Unused, Terminated}
    decreases |tasks| - i
  {
    if i == |tasks| then None
    else if tasks[i].state in {Unused, Terminated} then Some(i)
    else FreeSlot(tasks, i + 1)
  }

  /** A runnable current task makes calls; one that has just put itself to sleep, to
      wait or to an end only waits for the switch.  The idle task only yields. */
  predicate Enabled(s: Sys, step: Step) {
    && s.current < |s.tasks| && s.idle < |s.tasks|
    && (step.Tick? || step.Yield? || Runnable(s.tasks[s.current]))
    && ((step.WaitSem? || step.LockMutex? || step.WaitEvent? || step.Delay? || step.Exit?) ==> s.current != s.idle)
    && match step
       case WaitSem(i, _) => i < |s.sems|
       case SignalSem(i) => i < |s.sems|
       case LockMutex(i, _) => i < |s.mutexes|
       case UnlockMutex(i) => i < |s.mutexes|
       case WaitEvent(e, _, _) => e < |s.events|
       case SetEvent(e, _) => e < |s.events|
       case ClearEvent(e, _) => e < |s.events|
       case _ => true
  }

  function Next(s: Sys, step: Step): Sys
    requires Enabled(s, step)
  {
    match step
    case Tick => Schedule(s, true)
    case Yield => Schedule(s, false)
    case WaitSem(i, try) => SemWaitCall(s, i, try)
    case SignalSem(i) => SemSignalCall(s, i)
    case LockMutex(i, try) => MutexLockCall(s, i, try)
    case UnlockMutex(i) => MutexUnlockCall(s, i)
    case WaitEvent(e, mask, clear) => EventWaitCall(s, e, mask, clear)
    case SetEvent(e, mask) => EventSetCall(s, e, mask)
    case ClearEvent(e, mask) => s.(events := s.events[e := Cleared(s.events[e], mask)])
    case Delay(ticks) => DelayCall(s, ticks)
    case Create(priority) => CreateCall(s, priority)
    case Exit => ExitCall(s)
  }

  function SemWaitCall(s: Sys, i: nat, try: bool): Sys
    requires s.current < |s.tasks| && s.idle < |s.tasks| && i < |s.sems|
  {
    var (sem, outcome) := SemWait(s.sems[i], s.current, try);
    var s1 := s.(sems := s.sems[i := sem]);
    if outcome == Parked then Block(s1, s.current, SemObj(i)) else s1
  }

  function SemSignalCall(s: Sys, i: nat): Sys
    requires s.current < |s.tasks| && s.idle < |s.tasks| && i < |s.sems|
  {
    var (sem, w) := SemSignal(s.sems[i]);
    Unblock(s.(sems := s.sems[i := sem]), w)
  }

  function MutexLockCall(s: Sys, i: nat, try: bool): Sys
    requires s.current < |s.tasks| && s.idle < |s.tasks| && i < |s.mutexes|
  {
    var (m, outcome) := MutexLock(s.mutexes[i], s.current, try);
    var s1 := s.(mutexes := s.mutexes[i := m]);
    if outcome == Parked then
      Block(s1.(tasks := Inherit(s.tasks, s.mutexes[i].owner, s.current)), s.current, MutexObj(i))
    else s1
  }

  function MutexUnlockCall(s: Sys, i: nat): Sys
    requires s.current < |s.tasks| && s.idle < |s.tasks| && i < |s.mutexes|
  {
    var m := s.mutexes[i];
    var (m', w) := MutexUnlock(m, s.current);
    var s1 := s.(mutexes := s.mutexes[i := m']);
    if m.locked && m.owner == Some(s.current) && m.recursion <= 1
    then Unblock(s1.(tasks := ResetPriority(s.tasks, s.current)), w)
    else s1
  }

  predicate NoneSet(flags: bv32, mask: bv32) { flags & mask == 0 }

  function Cleared(flags: bv32, mask: bv32): bv32 { flags & !mask }

  function Raised(flags: bv32, mask: bv32): bv32 { flags | mask }

  /** One round of the loop in rtos_event_wait. */
  function EventWaitCall(s: Sys, e: nat, mask: bv32, clear: bool): Sys
    requires s.current < |s.tasks| && e < |s.events|
  {
    if NoneSet(s.events[e], mask) then
      var t := s.tasks[s.current].(state := Blocked, waitObject := Some(EventObj(e)), mask := mask);
      s.(tasks := s.tasks[s.current := t])
    else if clear then s.(events := s.events[e := Cleared(s.events[e], mask)])
    else s
  }

  function EventReadied(t: Task, e: nat): Task {
    if t.state == Blocked && t.waitObject == Some(EventObj(e)) then Readied(t) else t
  }

  function EventSetCall(s: Sys, e: nat, mask: bv32): Sys
    requires e < |s.events|
  {
    s.(events := s.events[e := Raised(s.events[e], mask)],
       tasks := seq(|s.tasks|, i requires 0 <= i < |s.tasks| => EventReadied(s.tasks[i], e)))
  }

  function DelayCall(s: Sys, ticks: nat): Sys
    requires s.current < |s.tasks|
  {
    if ticks == 0 then s
    else s.(tasks := s.tasks[s.current := s.tasks[s.current].(sleep := ticks, state := Sleeping)])
  }

  function ExitCall(s: Sys): Sys
    requires s.current < |s.tasks|
  {
    s.(tasks := s.tasks[s.current := s.tasks[s.current].(state := Terminated)])
  }

  function NewTask(priority: nat): Task {
    var p := if priority > MAX_PRIORITY then MAX_PRIORITY else priority;
    Task(Ready, p, p, 0, 0, None, 0)
  }

  /** The stack allocation is taken to succeed. */
  function CreateCall(s: Sys, priority: nat): Sys {
    match FreeSlot(s.tasks, 0)
    case None => s
    case Some(i) => s.(tasks := s.tasks[i := NewTask(priority)])
  }

  // ----- What the picker picks -----

  /** The round in which the scan that starts behind `last` visits slot x. */
  ghost function Dist(last: nat, n: nat, x: nat): (d: nat)
    requires n > 0
    ensures d < n
  {
    (x - last - 1) % n
  }

  lemma VisitDist(last: nat, n: nat, i: nat)
    requires i < n
    ensures Dist(last, n, Visit(last, n, i)) == i
  {
    var q := (last + 1) / n;
    var w := ((last + 1) % n + i) / n;
    DivMod(Visit(last, n, i) - last - 1, n, -q - w, i);
  }

  lemma DistVisit(last: nat, n: nat, x: nat)
    requires x < n
    ensures Visit(last, n, Dist(last, n, x)) == x
  {
    var q := (last + 1) / n;
    var d := (x - last - 1) / n;
    DivMod((last + 1) % n + Dist(last, n, x), n, -q - d, x);
  }

  /** c is runnable, has the highest priority, and among those comes first behind `last`. */
  ghost predicate Wins(tasks: seq<Task>, last: nat, n: nat, i: nat, c: Tid)
    requires 0 < n <= |tasks|
  {
    && c < n
    && Runnable(tasks[c])
    && Dist(last, n, c) < i
    && (forall x :: 0 <= x < n && Dist(last, n, x) < i && Runnable(tasks[x]) && x != c ==>
          || tasks[x].priority < tasks[c].priority
          || (tasks[x].priority == tasks[c].priority && Dist(last, n, c) < Dist(last, n, x)))
  }

  lemma {:induction false} BestWins(tasks: seq<Task>, last: nat, n: nat, i: nat)
    requires 0 < n <= |tasks| && i <= n
    ensures match Best(tasks, last, n, i)
            case None => forall x :: 0 <= x < n && Dist(last, n, x) < i ==> !Runnable(tasks[x])
            case Some(c) => Wins(tasks, last, n, i, c)
  {
    if i > 0 {
      BestWins(tasks, last, n, i - 1);
      VisitDist(last, n, i - 1);
      forall x | 0 <= x < n && Dist(last, n, x) == i - 1 ensures x == Visit(last, n, i - 1) {
        DistVisit(last, n, x);
      }
    }
  }

  ghost predicate Prefix(tasks: seq<Task>) {
    forall i, j :: 0 <= i < j < |tasks| && tasks[j].state != Unused ==> tasks[i].state != Unused
  }

  /** In a table without gaps the count separates used from unused slots. */
  lemma {:induction false} PrefixCount(tasks: seq<Task>)
    requires Prefix(tasks)
    ensures forall i :: 0 <= i < |tasks| ==> (i < TaskCount(tasks) <==> tasks[i].state != Unused)
  {
    if tasks != [] {
      var n := |tasks| - 1;
      PrefixCount(tasks[..n]);
      forall i | 0 <= i < n ensures i < TaskCount(tasks[..n]) <==> tasks[i].state != Unused {
        assert tasks[..n][i] == tasks[i];
      }
      if tasks[n].state != Unused {
        assert TaskCount(tasks[..n]) == n;
      }
    }
  }

  lemma {:induction false} SameCount(t: seq<Task>, u: seq<Task>)
    requires |t| == |u|
    requires forall i :: 0 <= i < |t| ==> (t[i].state == Unused <==> u[i].state == Unused)
    ensures TaskCount(t) == TaskCount(u)
  {
    if t != [] {
      SameCount(t[..|t| - 1], u[..|u| - 1]);
    }
  }

  lemma PickWins(tasks: seq<Task>, last: nat)
    requires Prefix(tasks)
    ensures match Pick(tasks, last)
            case None => forall x :: 0 <= x < |tasks| ==> !Runnable(tasks[x])
            case Some(c) => TaskCount(tasks) > 0 && Wins(tasks, last, TaskCount(tasks), TaskCount(tasks), c)
  {
    PrefixCount(tasks);
    var n := TaskCount(tasks);
    if n > 0 { BestWins(tasks, last, n, n); }
  }

  // ----- The invariant -----

  ghost predicate TaskOk(t: Task) {
    && 0 <= t.base <= t.priority <= MAX_PRIORITY
    && (t.state == Sleeping ==> t.sleep > 0)
  }

  /** Scheduler safety. */
  ghost predicate TableOk(tasks: seq<Task>, current: Tid, idle: Tid) {
    && current < |tasks|
    && idle < |tasks|
    && Prefix(tasks)
    && Runnable(tasks[idle])
    && tasks[current].state != Unused
    && (forall t :: 0 <= t < |tasks| && tasks[t].state == Running ==> t == current)
    && (forall t :: 0 <= t < |tasks| ==> TaskOk(tasks[t]))
  }

  predicate BlockedOn(t: Task, obj: WaitObject) {
    t.state == Blocked && t.waitObject == Some(obj)
  }

  /** A wait queue holds exactly the tasks blocked on its object, each once. */
  ghost predicate WaitersOk(q: seq<Tid>, obj: WaitObject, tasks: seq<Task>) {
    && Distinct(q)
    && (forall i :: 0 <= i < |q| ==> q[i] < |tasks| && BlockedOn(tasks[q[i]], obj))
    && (forall t :: 0 <= t < |tasks| && BlockedOn(tasks[t], obj) ==> t in q)
  }

  ghost predicate SemsOk(sems: seq<Sem>, tasks: seq<Task>) {
    forall i :: 0 <= i < |sems| ==> SemOk(sems[i]) && WaitersOk(sems[i].waiters, SemObj(i), tasks)
  }

  ghost predicate MutexesOk(mutexes: seq<Mutex>, tasks: seq<Task>) {
    forall i :: 0 <= i < |mutexes| ==>
      && MutexOk(mutexes[i])
      && WaitersOk(mutexes[i].waiters, MutexObj(i), tasks)
      && (mutexes[i].owner.Some? ==> mutexes[i].owner.value < |tasks|)
  }

  /** A blocked task waits for something that exists, and no event it waits for has
      happened: there is no lost wakeup. */
  ghost predicate WaitOk(t: Task, nSems: nat, nMutexes: nat, events: seq<bv32>) {
    t.state == Blocked ==>
      match t.waitObject
      case None => false
      case Some(SemObj(i)) => i < nSems
      case Some(MutexObj(i)) => i < nMutexes
      case Some(EventObj(e)) => e < |events| && NoneSet(events[e], t.mask)
  }

  ghost predicate WaitsOk(s: Sys) {
    forall t :: 0 <= t < |s.tasks| ==> WaitOk(s.tasks[t], |s.sems|, |s.mutexes|, s.events)
  }

  ghost predicate Inv(s: Sys) {
    && TableOk(s.tasks, s.current, s.idle)
    && SemsOk(s.sems, s.tasks)
    && MutexesOk(s.mutexes, s.tasks)
    && WaitsOk(s)
  }

  // ----- Frames -----

  /** The same tasks are blocked, on the same objects. */
  ghost predicate SameBlocked(t: seq<Task>, u: seq<Task>) {
    && |t| == |u|
    && (forall i :: 0 <= i < |t| ==>
          && (t[i].state == Blocked <==> u[i].state == Blocked)
          && (t[i].state == Blocked ==> t[i].waitObject == u[i].waitObject && t[i].mask == u[i].mask))
  }

  lemma SameBlockedKeeps(s: Sys, s': Sys)
    requires SemsOk(s.sems, s.tasks) && MutexesOk(s.mutexes, s.tasks) && WaitsOk(s)
    requires SameBlocked(s.tasks, s'.tasks)
    requires s'.sems == s.sems && s'.mutexes == s.mutexes && s'.events == s.events
    ensures SemsOk(s'.sems, s'.tasks) && MutexesOk(s'.mutexes, s'.tasks) && WaitsOk(s')
  {
    forall i | 0 <= i < |s.sems| ensures WaitersOk(s.sems[i].waiters, SemObj(i), s'.tasks) {
      SameWaiters(s.sems[i].waiters, SemObj(i), s.tasks, s'.tasks);
    }
    forall i | 0 <= i < |s.mutexes| ensures WaitersOk(s.mutexes[i].waiters, MutexObj(i), s'.tasks) {
      SameWaiters(s.mutexes[i].waiters, MutexObj(i), s.tasks, s'.tasks);
    }
  }

  lemma SameWaiters(q: seq<Tid>, obj: WaitObject, t: seq<Task>, u: seq<Task>)
    requires WaitersOk(q, obj, t) && SameBlocked(t, u)
    ensures WaitersOk(q, obj, u)
  {
  }

  /** One scheduling decision on the table. */
  ghost function Decided(tasks: seq<Task>, current: Tid, idle: Tid, last: nat): (r: (seq<Task>, Tid, nat))
    requires current < |tasks| && idle < |tasks|
  {
    var c := Pick(tasks, last);
    var next := if c.Some? && c.value < |tasks| then c.value else idle;
    (Dispatch(AfterPick(tasks, c), current, next), next, if c.Some? then c.value else last)
  }

  lemma AfterPickTable(tasks: seq<Task>, c: Option<Tid>, current: Tid, idle: Tid)
    requires TableOk(tasks, current, idle)
    ensures TableOk(AfterPick(tasks, c), current, idle)
    ensures forall i :: 0 <= i < |tasks| ==> AfterPick(tasks, c)[i].state == tasks[i].state
    ensures SameBlocked(tasks, AfterPick(tasks, c))
  {
    var r := AfterPick(tasks, c);
    forall i | 0 <= i < |tasks|
      ensures r[i] == tasks[i].(priority := r[i].priority) && TaskOk(r[i])
    {
      assert TaskOk(tasks[i]);
    }
  }

  lemma DispatchTable(tasks: seq<Task>, current: Tid, idle: Tid, next: Tid)
    requires TableOk(tasks, current, idle) && next < |tasks| && Runnable(tasks[next])
    ensures TableOk(Dispatch(tasks, current, next), next, idle) && SameBlocked(tasks, Dispatch(tasks, current, next))
  {
    var r := Dispatch(tasks, current, next);
    forall i | 0 <= i < |tasks|
      ensures r[i] == tasks[i].(state := r[i].state)
      ensures Runnable(r[i]) <==> Runnable(tasks[i])
      ensures !Runnable(tasks[i]) ==> r[i] == tasks[i]
      ensures TaskOk(r[i])
    {
      assert TaskOk(tasks[i]);
    }
  }

  lemma DecidedTable(tasks: seq<Task>, current: Tid, idle: Tid, last: nat)
    requires TableOk(tasks, current, idle)
    ensures var (r, next, last') := Decided(tasks, current, idle, last); TableOk(r, next, idle) && SameBlocked(tasks, r)
  {
    PickWins(tasks, last);
    var c := Pick(tasks, last);
    var (r, next, last') := Decided(tasks, current, idle, last);
    var m := AfterPick(tasks, c);
    assert next < |tasks| && Runnable(tasks[next]);
    hide Pick, AfterPick, Dispatch, TableOk, SameBlocked;
    AfterPickTable(tasks, c, current, idle);
    assert Runnable(m[next]);
    DispatchTable(m, current, idle, next);
    SameBlockedTrans(tasks, m, r);
  }

  lemma TickTable(tasks: seq<Task>, current: Tid, idle: Tid)
    requires TableOk(tasks, current, idle)
    ensures TableOk(TickAll(tasks), current, idle) && SameBlocked(tasks, TickAll(tasks))
  {
    forall i | 0 <= i < |tasks| ensures TaskOk(TickAll(tasks)[i]) {
      assert TaskOk(tasks[i]);
    }
  }

  lemma ChargedTable(tasks: seq<Task>, current: Tid, idle: Tid, tick: bool)
    requires TableOk(tasks, current, idle)
    ensures var r := Charged(if tick then TickAll(tasks) else tasks, current);
            TableOk(r, current, idle) && SameBlocked(tasks, r)
  {
    hide TickAll;
    if tick { TickTable(tasks, current, idle); }
    var t1 := if tick then TickAll(tasks) else tasks;
    var r := Charged(t1, current);
    forall i | 0 <= i < |tasks|
      ensures r[i] == t1[i].(runtime := r[i].runtime) && TaskOk(r[i])
    {
      assert TaskOk(t1[i]);
    }
  }

  /** Another state of one task. */
  lemma OneChange(tasks: seq<Task>, current: Tid, idle: Tid, x: Tid, u: Task)
    requires TableOk(tasks, current, idle) && x < |tasks| && tasks[x].state != Unused
    requires TaskOk(u) && u.state !in {Unused, Running} && (x == idle ==> Runnable(u))
    ensures TableOk(tasks[x := u], current, idle)
    ensures TaskCount(tasks[x := u]) == TaskCount(tasks)
  {
    SameCount(tasks, tasks[x := u]);
  }

  lemma ReadiedTable(tasks: seq<Task>, current: Tid, idle: Tid, w: Tid)
    requires TableOk(tasks, current, idle) && w < |tasks| && tasks[w].state == Blocked
    ensures current < |tasks| && idle < |tasks| && TableOk(tasks[w := Readied(tasks[w])], current, idle)
  {
    assert TaskOk(tasks[w]);
    hide Prefix;
    OneChange(tasks, current, idle, w, Readied(tasks[w]));
  }

  lemma SameBlockedTrans(t: seq<Task>, u: seq<Task>, v: seq<Task>)
    requires SameBlocked(t, u) && SameBlocked(u, v)
    ensures SameBlocked(t, v)
  {
  }

  lemma ScheduleInv(s: Sys, tick: bool)
    requires Inv(s)
    ensures Inv(Schedule(s, tick))
  {
    var t1 := Charged(if tick then TickAll(s.tasks) else s.tasks, s.current);
    var s' := Schedule(s, tick);
    assert TableOk(s'.tasks, s'.current, s.idle) && SameBlocked(s.tasks, s'.tasks) by {
      hide TableOk, SameBlocked, Pick, AfterPick, Dispatch, Charged, TickAll;
      ChargedTable(s.tasks, s.current, s.idle, tick);
      DecidedTable(t1, s.current, s.idle, s.last);
      assert Decided(t1, s.current, s.idle, s.last) == (s'.tasks, s'.current, s'.last);
      SameBlockedTrans(s.tasks, t1, s'.tasks);
    }
    hide SameBlocked, TableOk, SemsOk, MutexesOk, WaitsOk;
    SameBlockedKeeps(s, s');
  }

  // ----- Every call keeps the invariant -----

  ghost predicate Changed(t: seq<Task>, u: seq<Task>, x: Tid) {
    && |t| == |u|
    && x < |t|
    && (forall i :: 0 <= i < |t| && i != x ==> u[i] == t[i])
  }

  lemma WaitersPark(q: seq<Tid>, obj: WaitObject, t: seq<Task>, u: seq<Task>, x: Tid)
    requires WaitersOk(q, obj, t) && Changed(t, u, x) && t[x].state != Blocked && BlockedOn(u[x], obj)
    ensures WaitersOk(q + [x], obj, u)
  {
  }

  lemma WaitersWake(q: seq<Tid>, obj: WaitObject, t: seq<Task>, u: seq<Task>)
    requires WaitersOk(q, obj, t) && q != [] && Changed(t, u, q[0]) && u[q[0]].state != Blocked
    ensures WaitersOk(q[1..], obj, u)
  {
    forall y | 0 <= y < |u| && BlockedOn(u[y], obj) ensures y in q[1..] {
      assert y in q && q == [q[0]] + q[1..];
    }
  }

  /** A change of a task that is not and does not get blocked on an object. */
  lemma WaitersOther(q: seq<Tid>, obj: WaitObject, t: seq<Task>, u: seq<Task>, x: Tid)
    requires WaitersOk(q, obj, t) && Changed(t, u, x) && !BlockedOn(t[x], obj) && !BlockedOn(u[x], obj)
    ensures WaitersOk(q, obj, u)
  {
  }

  lemma SemsOther(sems: seq<Sem>, t: seq<Task>, u: seq<Task>, x: Tid)
    requires SemsOk(sems, t) && Changed(t, u, x)
    requires forall i :: 0 <= i < |sems| ==> !BlockedOn(t[x], SemObj(i)) && !BlockedOn(u[x], SemObj(i))
    ensures SemsOk(sems, u)
  {
    forall i | 0 <= i < |sems| ensures WaitersOk(sems[i].waiters, SemObj(i), u) {
      WaitersOther(sems[i].waiters, SemObj(i), t, u, x);
    }
  }

  lemma MutexesOther(mutexes: seq<Mutex>, t: seq<Task>, u: seq<Task>, x: Tid)
    requires MutexesOk(mutexes, t) && Changed(t, u, x)
    requires forall i :: 0 <= i < |mutexes| ==> !BlockedOn(t[x], MutexObj(i)) && !BlockedOn(u[x], MutexObj(i))
    ensures MutexesOk(mutexes, u)
  {
    forall i | 0 <= i < |mutexes| ensures WaitersOk(mutexes[i].waiters, MutexObj(i), u) {
      WaitersOther(mutexes[i].waiters, MutexObj(i), t, u, x);
    }
  }

  lemma WaitSemInv(s: Sys, i: nat, try: bool)
    requires Inv(s) && Enabled(s, WaitSem(i, try))
    ensures Inv(Next(s, WaitSem(i, try)))
  {
    var (sem, outcome) := SemWait(s.sems[i], s.current, try);
    if outcome == Parked {
      var c := s.current;
      var s1 := s.(sems := s.sems[i := sem],
                   tasks := s.tasks[c := s.tasks[c].(state := Blocked, waitObject := Some(SemObj(i)))]);
      forall j | 0 <= j < |s.sems| ensures SemOk(s1.sems[j]) && WaitersOk(s1.sems[j].waiters, SemObj(j), s1.tasks) {
        if j == i { WaitersPark(s.sems[i].waiters, SemObj(i), s.tasks, s1.tasks, c); }
        else { WaitersOther(s.sems[j].waiters, SemObj(j), s.tasks, s1.tasks, c); }
      }
      MutexesOther(s.mutexes, s.tasks, s1.tasks, c);
      assert TaskOk(s.tasks[c]);
      assert Inv(s1);
      ScheduleInv(s1, false);
    }
  }

  lemma WakeSemInv(s: Sys, i: nat)
    requires Inv(s) && i < |s.sems| && s.sems[i].waiters != []
    ensures var q := s.sems[i].waiters;
            Inv(Unblock(s.(sems := s.sems[i := s.sems[i].(waiters := q[1..])]), Some(q[0])))
  {
    var x := s.sems[i].waiters[0];
    var sem := s.sems[i].(waiters := s.sems[i].waiters[1..]);
    var s1 := s.(sems := s.sems[i := sem], tasks := s.tasks[x := Readied(s.tasks[x])]);
    forall j | 0 <= j < |s.sems| ensures SemOk(s1.sems[j]) && WaitersOk(s1.sems[j].waiters, SemObj(j), s1.tasks) {
      if j == i { WaitersWake(s.sems[i].waiters, SemObj(i), s.tasks, s1.tasks); }
      else { WaitersOther(s.sems[j].waiters, SemObj(j), s.tasks, s1.tasks, x); }
    }
    MutexesOther(s.mutexes, s.tasks, s1.tasks, x);
    assert TaskOk(s.tasks[x]);
    assert Inv(s1);
    ScheduleInv(s1, false);
  }

  lemma SignalSemInv(s: Sys, i: nat)
    requires Inv(s) && Enabled(s, SignalSem(i))
    ensures Inv(Next(s, SignalSem(i)))
  {
    if s.sems[i].waiters != [] {
      hide Inv, Unblock;
      WakeSemInv(s, i);
    }
  }

  lemma InheritInv(s: Sys, owner: Option<Tid>)
    requires Inv(s)
    ensures Inv(s.(tasks := Inherit(s.tasks, owner, s.current)))
  {
    var s' := s.(tasks := Inherit(s.tasks, owner, s.current));
    assert TaskOk(s.tasks[s.current]);
    SameBlockedKeeps(s, s');
  }

  lemma ResetInv(s: Sys)
    requires Inv(s)
    ensures Inv(s.(tasks := ResetPriority(s.tasks, s.current)))
  {
    var s' := s.(tasks := ResetPriority(s.tasks, s.current));
    assert TaskOk(s.tasks[s.current]);
    SameBlockedKeeps(s, s');
  }

  lemma ParkMutexInv(s: Sys, i: nat)
    requires Inv(s) && i < |s.mutexes| && s.current != s.idle && Runnable(s.tasks[s.current])
    requires s.mutexes[i].locked && s.mutexes[i].owner != Some(s.current)
    ensures var m := s.mutexes[i].(waiters := s.mutexes[i].waiters + [s.current]);
            Inv(Block(s.(mutexes := s.mutexes[i := m]), s.current, MutexObj(i)))
  {
    var c := s.current;
    var m := s.mutexes[i].(waiters := s.mutexes[i].waiters + [c]);
    var s1 := s.(mutexes := s.mutexes[i := m],
                 tasks := s.tasks[c := s.tasks[c].(state := Blocked, waitObject := Some(MutexObj(i)))]);
    forall j | 0 <= j < |s.mutexes|
      ensures MutexOk(s1.mutexes[j]) && WaitersOk(s1.mutexes[j].waiters, MutexObj(j), s1.tasks)
    {
      if j == i { WaitersPark(s.mutexes[i].waiters, MutexObj(i), s.tasks, s1.tasks, c); }
      else { WaitersOther(s.mutexes[j].waiters, MutexObj(j), s.tasks, s1.tasks, c); }
    }
    SemsOther(s.sems, s.tasks, s1.tasks, c);
    assert TaskOk(s.tasks[c]);
    assert Inv(s1);
    ScheduleInv(s1, false);
  }

  lemma LockMutexInv(s: Sys, i: nat, try: bool)
    requires Inv(s) && Enabled(s, LockMutex(i, try))
    ensures Inv(Next(s, LockMutex(i, try)))
  {
    var (m, outcome) := MutexLock(s.mutexes[i], s.current, try);
    if outcome == Parked {
      hide Inv, Block;
      InheritInv(s, s.mutexes[i].owner);
      ParkMutexInv(s.(tasks := Inherit(s.tasks, s.mutexes[i].owner, s.current)), i);
    }
  }

  lemma HandOffInv(s: Sys, i: nat)
    requires Inv(s) && i < |s.mutexes| && s.mutexes[i].locked && s.mutexes[i].waiters != []
    ensures var m := s.mutexes[i];
            var m' := m.(owner := Some(m.waiters[0]), recursion := 1, waiters := m.waiters[1..]);
            Inv(Unblock(s.(mutexes := s.mutexes[i := m']), Some(m.waiters[0])))
  {
    var m := s.mutexes[i];
    var x := m.waiters[0];
    var m' := m.(owner := Some(x), recursion := 1, waiters := m.waiters[1..]);
    var s1 := s.(mutexes := s.mutexes[i := m'], tasks := s.tasks[x := Readied(s.tasks[x])]);
    forall j | 0 <= j < |s.mutexes|
      ensures MutexOk(s1.mutexes[j]) && WaitersOk(s1.mutexes[j].waiters, MutexObj(j), s1.tasks)
    {
      if j == i { WaitersWake(m.waiters, MutexObj(i), s.tasks, s1.tasks); }
      else { WaitersOther(s.mutexes[j].waiters, MutexObj(j), s.tasks, s1.tasks, x); }
    }
    SemsOther(s.sems, s.tasks, s1.tasks, x);
    assert TaskOk(s.tasks[x]);
    assert Inv(s1);
    ScheduleInv(s1, false);
  }

  lemma UnlockMutexInv(s: Sys, i: nat)
    requires Inv(s) && Enabled(s, UnlockMutex(i))
    ensures Inv(Next(s, UnlockMutex(i)))
  {
    var m := s.mutexes[i];
    if m.locked && m.owner == Some(s.current) && m.recursion <= 1 {
      ResetInv(s);
      var s1 := s.(tasks := ResetPriority(s.tasks, s.current));
      if m.waiters != [] {
        hide Inv, Unblock;
        HandOffInv(s1, i);
      } else {
        hide ResetPriority;
        assert Inv(s1.(mutexes := s.mutexes[i := m.(locked := false, recursion := 0, owner := None)]));
      }
    }
  }

  lemma MaskLaws(f: bv32, m: bv32, k: bv32)
    ensures NoneSet(f, k) ==> NoneSet(Cleared(f, m), k)
  {
    assert (f & !m) & k == (f & k) & !m;
  }

  lemma ParkEventInv(s: Sys, e: nat, t: Task)
    requires Inv(s) && e < |s.events| && s.current != s.idle && Runnable(s.tasks[s.current])
    requires t == s.tasks[s.current].(state := Blocked, waitObject := Some(EventObj(e)), mask := t.mask)
    requires WaitOk(t, |s.sems|, |s.mutexes|, s.events)
    ensures Inv(s.(tasks := s.tasks[s.current := t]))
  {
    var tasks := s.tasks[s.current := t];
    SemsOther(s.sems, s.tasks, tasks, s.current);
    MutexesOther(s.mutexes, s.tasks, tasks, s.current);
    assert TaskOk(s.tasks[s.current]);
    hide SemsOk, MutexesOk;
  }

  lemma WaitEventInv(s: Sys, e: nat, mask: bv32, clear: bool)
    requires Inv(s) && e < |s.events| && s.current != s.idle && Runnable(s.tasks[s.current])
    ensures Inv(EventWaitCall(s, e, mask, clear))
  {
    hide SemsOk, MutexesOk, WaitsOk, NoneSet;
    if NoneSet(s.events[e], mask) {
      ParkEventInv(s, e, s.tasks[s.current].(state := Blocked, waitObject := Some(EventObj(e)), mask := mask));
    } else {
      ClearEventInv(s, e, mask);
    }
  }

  lemma ClearEventInv(s: Sys, e: nat, mask: bv32)
    requires Inv(s) && e < |s.events|
    ensures Inv(s.(events := s.events[e := Cleared(s.events[e], mask)]))
  {
    var s' := s.(events := s.events[e := Cleared(s.events[e], mask)]);
    forall t | 0 <= t < |s.tasks| ensures WaitOk(s'.tasks[t], |s.sems|, |s.mutexes|, s'.events) {
      assert WaitOk(s.tasks[t], |s.sems|, |s.mutexes|, s.events);
      MaskLaws(s.events[e], mask, s.tasks[t].mask);
    }
  }

  lemma ReadiedTask(t: Task, e: nat, f: bv32, nSems: nat, nMutexes: nat, events: seq<bv32>)
    requires WaitOk(t, nSems, nMutexes, events) && TaskOk(t) && e < |events|
    ensures WaitOk(EventReadied(t, e), nSems, nMutexes, events[e := f]) && TaskOk(EventReadied(t, e))
    ensures forall i :: BlockedOn(EventReadied(t, e), SemObj(i)) <==> BlockedOn(t, SemObj(i))
    ensures forall i :: BlockedOn(EventReadied(t, e), MutexObj(i)) <==> BlockedOn(t, MutexObj(i))
    ensures EventReadied(t, e).state == t.state || (t.state == Blocked && EventReadied(t, e).state == Ready)
  {
    hide NoneSet;
  }

  lemma SetEventInv(s: Sys, e: nat, mask: bv32)
    requires Inv(s) && e < |s.events|
    ensures Inv(EventSetCall(s, e, mask))
  {
    hide WaitOk, TaskOk, NoneSet;
    var s' := EventSetCall(s, e, mask);
    forall t | 0 <= t < |s.tasks|
      ensures forall i :: BlockedOn(s'.tasks[t], SemObj(i)) <==> BlockedOn(s.tasks[t], SemObj(i))
      ensures forall i :: BlockedOn(s'.tasks[t], MutexObj(i)) <==> BlockedOn(s.tasks[t], MutexObj(i))
      ensures s'.tasks[t].state == s.tasks[t].state || (s.tasks[t].state == Blocked && s'.tasks[t].state == Ready)
      ensures WaitOk(s'.tasks[t], |s.sems|, |s.mutexes|, s'.events) && TaskOk(s'.tasks[t])
    {
      ReadiedTask(s.tasks[t], e, s'.events[e], |s.sems|, |s.mutexes|, s.events);
    }
    forall i | 0 <= i < |s.sems| ensures WaitersOk(s.sems[i].waiters, SemObj(i), s'.tasks) {
      SameObjWaiters(s.sems[i].waiters, SemObj(i), s.tasks, s'.tasks);
    }
    forall i | 0 <= i < |s.mutexes| ensures WaitersOk(s.mutexes[i].waiters, MutexObj(i), s'.tasks) {
      SameObjWaiters(s.mutexes[i].waiters, MutexObj(i), s.tasks, s'.tasks);
    }
  }

  lemma SameObjWaiters(q: seq<Tid>, obj: WaitObject, t: seq<Task>, u: seq<Task>)
    requires WaitersOk(q, obj, t) && |t| == |u|
    requires forall i :: 0 <= i < |t| ==> (BlockedOn(t[i], obj) <==> BlockedOn(u[i], obj))
    ensures WaitersOk(q, obj, u)
  {
  }

  /** Delay, Create and Exit change one task that is not blocked before or after. */
  lemma UnblockedChange(s: Sys, s': Sys, x: Tid)
    requires SemsOk(s.sems, s.tasks) && MutexesOk(s.mutexes, s.tasks) && WaitsOk(s)
    requires Changed(s.tasks, s'.tasks, x) && s.tasks[x].state != Blocked && s'.tasks[x].state != Blocked
    requires s'.sems == s.sems && s'.mutexes == s.mutexes && s'.events == s.events
    ensures SemsOk(s'.sems, s'.tasks) && MutexesOk(s'.mutexes, s'.tasks) && WaitsOk(s')
  {
    SemsOther(s.sems, s.tasks, s'.tasks, x);
    MutexesOther(s.mutexes, s.tasks, s'.tasks, x);
  }

  lemma DelayInv(s: Sys, ticks: nat)
    requires Inv(s) && Enabled(s, Delay(ticks))
    ensures Inv(Next(s, Delay(ticks)))
  {
    assert TaskOk(s.tasks[s.current]);
    UnblockedChange(s, DelayCall(s, ticks), s.current);
  }

  lemma CreateInv(s: Sys, priority: nat)
    requires Inv(s) && Enabled(s, Create(priority))
    ensures Inv(Next(s, Create(priority)))
  {
    var r := FreeSlot(s.tasks, 0);
    if r.Some? {
      UnblockedChange(s, CreateCall(s, priority), r.value);
    }
  }

  lemma ExitInv(s: Sys)
    requires Inv(s) && Enabled(s, Exit)
    ensures Inv(Next(s, Exit))
  {
    assert TaskOk(s.tasks[s.current]);
    UnblockedChange(s, Next(s, Exit), s.current);
  }

  lemma StepInv(s: Sys, step: Step)
    requires Inv(s) && Enabled(s, step)
    ensures Inv(Next(s, step))
  {
    hide Inv;
    match step
    case Tick => ScheduleInv(s, true);
    case Yield => ScheduleInv(s, false);
    case WaitSem(i, try) => WaitSemInv(s, i, try);
    case SignalSem(i) => SignalSemInv(s, i);
    case LockMutex(i, try) => LockMutexInv(s, i, try);
    case UnlockMutex(i) => UnlockMutexInv(s, i);
    case WaitEvent(e, mask, clear) => WaitEventInv(s, e, mask, clear);
    case SetEvent(e, mask) => SetEventInv(s, e, mask);
    case ClearEvent(e, mask) => ClearEventInv(s, e, mask);
    case Delay(ticks) => DelayInv(s, ticks);
    case Create(priority) => CreateInv(s, priority);
    case Exit => ExitInv(s);
  }

  // ----- Runs -----

  /** rtos_sched_start on a table in which nothing but creation has happened. */
  ghost predicate Fresh(s: Sys) {
    && s.current < |s.tasks| && s.idle < |s.tasks|
    && Prefix(s.tasks)
    && s.tasks[s.idle].state == Ready
    && (forall t :: 0 <= t < |s.tasks| ==> s.tasks[t].state in {Unused, Ready} && TaskOk(s.tasks[t]))
    && (forall i :: 0 <= i < |s.sems| ==> 0 <= s.sems[i].count && s.sems[i].waiters == [])
    && (forall i :: 0 <= i < |s.mutexes| ==> s.mutexes[i] == Mutex(false, 0, None, []))
  }

  ghost function Start(s: Sys): Sys
    requires s.idle < |s.tasks|
  {
    var c := Pick(s.tasks, s.last);
    var first := if c.Some? && c.value < |s.tasks| then c.value else s.idle;
    var aged := AfterPick(s.tasks, c);
    s.(tasks := aged[first := aged[first].(state := Running)],
       current := first,
       last := if c.Some? then c.value else s.last)
  }

  lemma StartInv(s: Sys)
    requires Fresh(s)
    ensures Inv(Start(s))
  {
    hide SemsOk, MutexesOk, WaitsOk, TableOk;
    StartTable(s);
    StartObjects(s);
  }

  lemma StartTable(s: Sys)
    requires Fresh(s)
    ensures var s' := Start(s);
      && TableOk(s'.tasks, s'.current, s'.idle)
      && forall t :: 0 <= t < |s'.tasks| ==> s'.tasks[t].state in {Unused, Ready, Running}
  {
    PickWins(s.tasks, s.last);
    hide Pick;
    var s' := Start(s);
    forall t | 0 <= t < |s.tasks|
      ensures s'.tasks[t].state == if t == s'.current then Running else s.tasks[t].state
      ensures TaskOk(s'.tasks[t])
    {
      assert TaskOk(s.tasks[t]);
    }
  }

  lemma StartObjects(s: Sys)
    requires Fresh(s) && forall t :: 0 <= t < |Start(s).tasks| ==> Start(s).tasks[t].state in {Unused, Ready, Running}
    ensures var s' := Start(s); SemsOk(s'.sems, s'.tasks) && MutexesOk(s'.mutexes, s'.tasks) && WaitsOk(s')
  {
    hide Pick, AfterPick, Prefix;
  }

  /** States and the steps between them, from any state that satisfies the invariant. */
  ghost predicate Run(states: seq<Sys>, steps: seq<Step>) {
    && |states| == |steps| + 1
    && Inv(states[0])
    && (forall i :: 0 <= i < |steps| ==> Enabled(states[i], steps[i]) && states[i + 1] == Next(states[i], steps[i]))
  }

  ghost predicate Reachable(s: Sys) {
    exists boot, states, steps :: Fresh(boot) && Run(states, steps) && states[0] == Start(boot) && s == states[|steps|]
  }

  lemma {:induction false} RunInv(states: seq<Sys>, steps: seq<Step>, i: nat)
    requires Run(states, steps) && i <= |steps|
    ensures Inv(states[i])
  {
    hide Inv, Next, Enabled;
    if i > 0 {
      RunInv(states, steps, i - 1);
      StepInv(states[i - 1], steps[i - 1]);
    }
  }

  lemma ReachableInv(s: Sys)
    requires Reachable(s)
    ensures Inv(s)
  {
    var boot, states, steps :| Fresh(boot) && Run(states, steps) && states[0] == Start(boot) && s == states[|steps|];
    RunInv(states, steps, |steps|);
  }

  /** In every reachable state a running task is the current one, priorities stay
      between base and 15, and the i-th used slot is slot i. */
  lemma SchedulerSafety(s: Sys, t: Tid)
    requires Reachable(s) && t < |s.tasks|
    ensures s.tasks[t].state == Running ==> t == s.current
    ensures 0 <= s.tasks[t].base <= s.tasks[t].priority <= MAX_PRIORITY
    ensures t < TaskCount(s.tasks) <==> s.tasks[t].state != Unused
    ensures s.idle < |s.tasks| && Runnable(s.tasks[s.idle])
  {
    ReachableInv(s);
    PrefixCount(s.tasks);
    assert TaskOk(s.tasks[t]);
  }

  /** A semaphore with waiters has no token; a task is in the queue of an object exactly
      when it is blocked on it, hence in one queue at most, once. */
  lemma SemaphoreSafety(s: Sys, i: nat, t: Tid)
    requires Reachable(s) && i < |s.sems| && t < |s.tasks|
    ensures s.sems[i].count >= 0 && (s.sems[i].waiters != [] ==> s.sems[i].count == 0)
    ensures t in s.sems[i].waiters <==> BlockedOn(s.tasks[t], SemObj(i))
    ensures Distinct(s.sems[i].waiters)
    ensures forall j :: 0 <= j < |s.sems| && t in s.sems[i].waiters && t in s.sems[j].waiters ==> i == j
    ensures forall j :: 0 <= j < |s.mutexes| ==> !(t in s.sems[i].waiters && t in s.mutexes[j].waiters)
  {
    hide Reachable, TableOk;
    ReachableInv(s);
  }

  /** A mutex is locked exactly when it has an owner; the owner does not wait for it. */
  lemma MutexSafety(s: Sys, i: nat, t: Tid)
    requires Reachable(s) && i < |s.mutexes| && t < |s.tasks|
    ensures MutexOk(s.mutexes[i])
    ensures t in s.mutexes[i].waiters <==> BlockedOn(s.tasks[t], MutexObj(i))
    ensures s.mutexes[i].owner == Some(t) ==> !BlockedOn(s.tasks[t], MutexObj(i))
  {
    ReachableInv(s);
  }

  /** A task blocked on an event group has none of its bits set. */
  lemma NoLostWakeup(s: Sys, t: Tid, e: nat)
    requires Reachable(s) && t < |s.tasks| && BlockedOn(s.tasks[t], EventObj(e))
    ensures e < |s.events| && s.events[e] & s.tasks[t].mask == 0
  {
    ReachableInv(s);
    assert WaitOk(s.tasks[t], |s.sems|, |s.mutexes|, s.events);
  }
}
