/**
  The kernel as it is written: one table of control blocks updated in place, wait
  queues threaded through the blocks, and loops over the table.  Every operation is
  proved to do what the transition system of the Scheduler module says.
 */
module Kernel {
  import opened Prelude
  import opened SyncObjects
  import opened Scheduler

  /** A control block: what the scheduler sees, and the link to the next waiter. */
  datatype Tcb = Tcb(task: Task, nextWait: Option<Tid>)

  datatype SemBlock = SemBlock(count: int, max: int, head: Option<Tid>, tail: Option<Tid>)

  datatype MutexBlock =
    MutexBlock(locked: bool, recursion: nat, owner: Option<Tid>, head: Option<Tid>, tail: Option<Tid>)

  datatype EventBlock = EventBlock(flags: bv32)

  function TasksOf(tab: seq<Tcb>): (r: seq<Task>)
    ensures |r| == |tab|
  {
    seq(|tab|, i requires 0 <= i < |tab| => tab[i].task)
  }

  function LinksOf(tab: seq<Tcb>): (r: seq<Option<Tid>>)
    ensures |r| == |tab|
  {
    seq(|tab|, i requires 0 <= i < |tab| => tab[i].nextWait)
  }

  /** The list from head to tail through the links is q. */
  ghost predicate Linked(links: seq<Option<Tid>>, head: Option<Tid>, tail: Option<Tid>, q: seq<Tid>) {
    && (forall i :: 0 <= i < |q| ==> q[i] < |links|)
    && head == (if q == [] then None else Some(q[0]))
    && tail == (if q == [] then None else Some(q[|q| - 1]))
    && (forall i :: 0 <= i < |q| ==> links[q[i]] == After(q, i))
  }

  function After(q: seq<Tid>, i: nat): Option<Tid> {
    if i + 1 < |q| then Some(q[i + 1]) else None
  }

  class Machine {
    var table: array<Tcb>
    var sems: array<SemBlock>
    var mutexes: array<MutexBlock>
    var events: array<EventBlock>
    var current: nat
    var idle: nat
    var last: nat
    ghost var decisions: nat
    ghost var semQueues: seq<seq<Tid>>
    ghost var mutexQueues: seq<seq<Tid>>

    ghost function Tasks(): (r: seq<Task>)
      reads this, table
    {
      TasksOf(table[..])
    }

    ghost function Links(): (r: seq<Option<Tid>>)
      reads this, table
    {
      LinksOf(table[..])
    }

    /** rtos_sched_init and rtos_sched_start with the idle task alone in slot 0. */
    constructor (slots: nat, semaphores: seq<(nat, int)>, mutexCount: nat, eventCount: nat)
      requires slots > 0
      ensures Valid()
      ensures fresh(table) && fresh(sems) && fresh(mutexes) && fresh(events)
      ensures table.Length == slots && sems.Length == |semaphores| && mutexes.Length == mutexCount
      ensures events.Length == eventCount
      ensures current == idle == 0 && Tasks()[0].state == Running
    {
      var zero := Task(Unused, 0, 0, 0, 0, None, 0);
      table := new Tcb[slots](i => Tcb(if i == 0 then zero.(state := Running) else zero, None));
      sems := new SemBlock[|semaphores|](i requires 0 <= i < |semaphores| =>
        SemBlock(semaphores[i].0, semaphores[i].1, None, None));
      mutexes := new MutexBlock[mutexCount](_ => MutexBlock(false, 0, None, None, None));
      events := new EventBlock[eventCount](_ => EventBlock(0));
      current, idle, last, decisions := 0, 0, 0, 0;
      semQueues := seq(|semaphores|, _ => []);
      mutexQueues := seq(mutexCount, _ => []);
      new;
      hide Inv, Prefix;
      BootInv(Abs());
    }

    // ----- rtos_get_task_count, rtos_get_task_by_index -----

    method GetTaskCount() returns (count: nat)
      ensures count == TaskCount(Tasks())
    {
      count := 0;
      var i := 0;
      while i < table.Length
        invariant 0 <= i <= table.Length
        invariant count == TaskCount(Tasks()[..i])
      {
        assert Tasks()[..i + 1][..i] == Tasks()[..i];
        if table[i].task.state != Unused {
          count := count + 1;
        }
        i := i + 1;
      }
      assert Tasks()[..table.Length] == Tasks();
    }

    /** In a table without gaps the i-th used slot is slot i. */
    method GetTaskByIndex(index: nat) returns (r: Option<Tid>)
      requires Prefix(Tasks())
      ensures r == if index < TaskCount(Tasks()) then Some(index) else None
    {
      PrefixCount(Tasks());
      var count := 0;
      var i := 0;
      while i < table.Length
        invariant 0 <= i <= table.Length
        invariant count == if i < TaskCount(Tasks()) then i else TaskCount(Tasks())
        invariant count <= index
      {
        assert Tasks()[i] == table[i].task;
        if table[i].task.state != Unused {
          if count == index {
            return Some(i);
          }
          count := count + 1;
        }
        i := i + 1;
      }
      r := None;
    }

    // ----- find_next_ready_task -----

    /** One visit of the sweep: is it better than the best so far?  And it ages. */
    method VisitTask(idx: nat, best: Option<Tid>, highest: int) returns (best': Option<Tid>, highest': int)
      requires idx < table.Length
      modifies table
      ensures var t := old(table[idx].task);
              && Tasks() == old(Tasks())[idx := Aged(t)]
              && (if Runnable(t) && t.priority > highest then best' == Some(idx) && highest' == t.priority
                  else best' == best && highest' == highest)
      ensures Links() == old(Links())
    {
      best', highest' := best, highest;
      if table[idx].task.state == Ready || table[idx].task.state == Running {
        if table[idx].task.priority > highest {
          highest' := table[idx].task.priority;
          best' := Some(idx);
        }
        if table[idx].task.priority < MAX_PRIORITY {
          table[idx] := table[idx].(task := table[idx].task.(priority := table[idx].task.priority + 1));
        }
      }
    }

    /** The sweep after i rounds: who is best, at what priority, and who has aged. */
    ghost predicate SweepAt(tasks: seq<Task>, n: nat, i: nat, best: Option<Tid>, highest: int)
      requires 0 < n <= |tasks|
      reads this, table
    {
      && best == Best(tasks, last, n, i)
      && (if best.Some? then best.value < n && highest == tasks[best.value].priority else highest == -1)
      && Tasks() == Swept(tasks, last, n, i)
    }

    method SweepRound(count: nat, i: nat, best: Option<Tid>, highest: int, ghost tasks: seq<Task>)
      returns (best': Option<Tid>, highest': int)
      requires 0 < count == TaskCount(tasks) && Prefix(tasks) && i < count
      requires forall t :: 0 <= t < |tasks| ==> TaskOk(tasks[t])
      requires SweepAt(tasks, count, i, best, highest)
      modifies table
      ensures SweepAt(tasks, count, i + 1, best', highest')
      ensures Links() == old(Links())
    {
      hide Prefix, Swept, Best, TaskCount, Visit, RoundIndex, Aged, TaskOk, Runnable;
      var idx := RoundIndex(last, count, i);
      SweptVisit(last, count, i);
      SweptTable(tasks, last, count, i);
      var t := GetTaskByIndex(idx);
      assert t == Some(idx);
      BestStep(tasks, last, count, i);
      assert table[idx].task == Tasks()[idx] == tasks[idx];
      best', highest' := VisitTask(idx, best, highest);
    }

    /** Chooses and ages in one sweep; the choice is made on the priorities before it. */
    method Sweep(count: nat) returns (best: Option<Tid>)
      requires 0 < count == TaskCount(Tasks()) && Prefix(Tasks())
      requires forall t :: 0 <= t < |Tasks()| ==> TaskOk(Tasks()[t])
      modifies table
      ensures best == Best(old(Tasks()), last, count, count)
      ensures Tasks() == Swept(old(Tasks()), last, count, count)
      ensures Links() == old(Links())
    {
      hide Prefix, Swept, Best, TaskCount, TaskOk;
      ghost var tasks := Tasks();
      best := None;
      var highest := -1;
      var i := 0;
      SweptNone(tasks, last, count);
      while i < count
        invariant 0 <= i <= count
        invariant SweepAt(tasks, count, i, best, highest)
        invariant Links() == old(Links())
      {
        best, highest := SweepRound(count, i, best, highest, tasks);
        i := i + 1;
      }
    }

    method FindNextReadyTask() returns (next: Tid)
      requires idle < table.Length
      requires TaskCount(Tasks()) > 0 && Prefix(Tasks())
      requires forall t :: 0 <= t < |Tasks()| ==> TaskOk(Tasks()[t])
      modifies table, `last
      ensures var c := Pick(old(Tasks()), old(last));
              && Tasks() == AfterPick(old(Tasks()), c)
              && next == (if c.Some? && c.value < table.Length then c.value else idle)
              && last == (if c.Some? then c.value else old(last))
      ensures Links() == old(Links())
    {
      ghost var tasks := Tasks();
      var count := GetTaskCount();
      var best := Sweep(count);
      SweptAll(tasks, last, count);
      BestWins(tasks, last, count, count);
      hide Prefix, Swept, Best, TaskCount, TaskOk;
      if best.Some? {
        assert table[best.value].task == Tasks()[best.value] == Aged(tasks[best.value]);
        var t := table[best.value].task;
        table[best.value] := table[best.value].(task := t.(priority := t.base));
        assert Tasks() == AfterPick(tasks, best);
        last := best.value;
        next := best.value;
      } else {
        next := idle;
      }
    }

    // ----- rtos_schedule_from_isr -----

    method TickSleepers()
      requires Prefix(Tasks())
      modifies table
      ensures Tasks() == TickAll(old(Tasks()))
      ensures Links() == old(Links())
    {
      hide Prefix, TaskCount;
      ghost var tasks := Tasks();
      var count := GetTaskCount();
      var i := 0;
      while i < count
        invariant 0 <= i <= count
        invariant Tasks() == TickedUpTo(tasks, i)
        invariant Links() == old(Links())
      {
        TickedTable(tasks, i);
        var r := GetTaskByIndex(i);
        assert table[i].task == Tasks()[i] == tasks[i];
        if table[i].task.state == Sleeping {
          if table[i].task.sleep > 0 {
            table[i] := table[i].(task := table[i].task.(sleep := table[i].task.sleep - 1));
            if table[i].task.sleep == 0 {
              table[i] := table[i].(task := table[i].task.(state := Ready));
            }
          }
        }
        i := i + 1;
      }
      TickedRest(tasks);
    }

    ghost predicate Shape()
      reads this
    {
      |semQueues| == sems.Length && |mutexQueues| == mutexes.Length
    }

    /** The state of the transition system that this machine is in. */
    ghost function Abs(): Sys
      reads this, table, sems, mutexes, events
      requires Shape()
    {
      Sys(decisions, Tasks(), current, idle, last,
          SemsOf(sems[..], semQueues), MutexesOf(mutexes[..], mutexQueues), EventsOf(events[..]))
    }

    /** Tick, charge, decide: the tables and registers after one pass. */
    method TickAndDecide(tick: bool)
      requires TableOk(Tasks(), current, idle)
      modifies table, `current, `last, `decisions
      ensures (Tasks(), current, last)
           == Decided(Charged(if tick then TickAll(old(Tasks())) else old(Tasks()), old(current)), old(current), idle,
                      old(last))
      ensures decisions == old(decisions) + 1
      ensures Links() == old(Links())
    {
      ghost var t1 := Charged(if tick then TickAll(Tasks()) else Tasks(), current);
      ChargedTable(Tasks(), current, idle, tick);
      hide Prefix, TaskCount, TickAll, Charged, Pick, AfterPick, Dispatch, SameBlocked, Runnable;
      if tick {
        TickSleepers();
      }
      ChargeCurrent();
      Decide();
    }

    /** The scheduler moves no block between lists. */
    method ScheduleFromIsr(tick: bool)
      requires Shape() && TableOk(Tasks(), current, idle)
      modifies table, `current, `last, `decisions
      ensures Abs() == Schedule(old(Abs()), tick)
      ensures Links() == old(Links())
    {
      hide TableOk, TickAll, Charged, Pick, AfterPick, Dispatch;
      TickAndDecide(tick);
      assert sems[..] == old(sems[..]) && mutexes[..] == old(mutexes[..]) && events[..] == old(events[..]);
    }

    method Decide()
      requires TableOk(Tasks(), current, idle)
      modifies table, `current, `last, `decisions
      ensures (Tasks(), current, last) == Decided(old(Tasks()), old(current), idle, old(last))
      ensures decisions == old(decisions) + 1
      ensures Links() == old(Links())
    {
      PrefixCount(Tasks());
      PickWins(Tasks(), last);
      hide Prefix, TaskCount, Pick, AfterPick, Dispatch, Runnable;
      var next := FindNextReadyTask();
      SwitchTo(next);
      decisions := decisions + 1;
    }

    method ChargeCurrent()
      requires current < table.Length
      modifies table
      ensures Tasks() == Charged(old(Tasks()), current)
      ensures Links() == old(Links())
    {
      table[current] := table[current].(task := table[current].task.(runtime := table[current].task.runtime + 1));
    }

    method SwitchTo(next: Tid)
      requires current < table.Length && next < table.Length
      modifies table, `current
      ensures Tasks() == Dispatch(old(Tasks()), old(current), next) && current == next
      ensures Links() == old(Links())
    {
      if current != next {
        if table[current].task.state == Running {
          table[current] := table[current].(task := table[current].task.(state := Ready));
        }
        table[next] := table[next].(task := table[next].task.(state := Running));
        current := next;
      }
    }

    // ----- add_waiter, pop_waiter -----

    method AddWaiter(head: Option<Tid>, tail: Option<Tid>, t: Tid, ghost q: seq<Tid>)
      returns (head': Option<Tid>, tail': Option<Tid>)
      requires t < table.Length && Linked(Links(), head, tail, q) && t !in q && Distinct(q)
      modifies table
      ensures Linked(Links(), head', tail', q + [t])
      ensures Links() == Appended(old(Links()), tail, t)
      ensures Tasks() == old(Tasks())
    {
      LinkedAppend(Links(), head, tail, q, t);
      table[t] := table[t].(nextWait := None);
      if head.None? {
        head', tail' := Some(t), Some(t);
      } else {
        table[tail.value] := table[tail.value].(nextWait := Some(t));
        head', tail' := head, Some(t);
      }
      assert Links() == Appended(old(Links()), tail, t);
    }

    method PopWaiter(head: Option<Tid>, tail: Option<Tid>, ghost q: seq<Tid>)
      returns (w: Option<Tid>, head': Option<Tid>, tail': Option<Tid>)
      requires Linked(Links(), head, tail, q) && Distinct(q)
      modifies table
      ensures w == if q == [] then None else Some(q[0])
      ensures Linked(Links(), head', tail', if q == [] then [] else q[1..])
      ensures Links() == if q == [] then old(Links()) else old(Links())[q[0] := None]
      ensures Tasks() == old(Tasks())
    {
      if head.None? {
        w, head', tail' := None, head, tail;
      } else {
        LinkedPop(Links(), head, tail, q);
        w := head;
        head' := table[head.value].nextWait;
        tail' := if head'.None? then None else tail;
        table[head.value] := table[head.value].(nextWait := None);
        assert Links() == old(Links())[q[0] := None];
      }
    }

    // ----- rtos_task_block, rtos_task_unblock -----

    method TaskBlock(obj: WaitObject)
      requires Shape() && TableOk(Tasks(), current, idle) && current != idle
      modifies table, `current, `last, `decisions
      ensures Abs() == Block(old(Abs()), old(current), obj)
      ensures Links() == old(Links())
    {
      ghost var s := Abs();
      BlockedTable(Tasks(), current, idle, obj);
      table[current] := table[current].(task := table[current].task.(state := Blocked, waitObject := Some(obj)));
      assert Tasks() == s.tasks[current := s.tasks[current].(state := Blocked, waitObject := Some(obj))];
      assert Links() == old(Links());
      assert sems[..] == old(sems[..]) && mutexes[..] == old(mutexes[..]) && events[..] == old(events[..]);
      hide TableOk, Schedule;
      ScheduleFromIsr(false);
    }

    method TaskUnblock(w: Tid)
      requires Shape() && TableOk(Tasks(), current, idle) && w < table.Length && Tasks()[w].state == Blocked
      modifies table, `current, `last, `decisions
      ensures Abs() == Unblock(old(Abs()), Some(w))
      ensures Links() == old(Links())
    {
      ghost var s := Abs();
      ReadiedTable(Tasks(), current, idle, w);
      table[w] := table[w].(task := table[w].task.(state := Ready, waitObject := None));
      assert Tasks() == s.tasks[w := Readied(s.tasks[w])];
      assert Links() == old(Links());
      assert sems[..] == old(sems[..]) && mutexes[..] == old(mutexes[..]) && events[..] == old(events[..]);
      assert Tasks()[w] == table[w].task && Tasks()[current] == table[current].task;
      hide TableOk;
      if table[w].task.priority > table[current].task.priority {
        ScheduleFromIsr(false);
      }
    }

    // ----- The system calls -----

    ghost predicate Valid()
      reads this, table, sems, mutexes, events
    {
      && Shape()
      && ListsOk(Links(), sems[..], mutexes[..], semQueues, mutexQueues)
      && Inv(Abs())
    }

    method SemWaitCall(i: nat, try: bool) returns (outcome: Outcome)
      requires Valid() && Enabled(Abs(), WaitSem(i, try))
      modifies table, sems, `semQueues, `current, `last, `decisions
      ensures Valid()
      ensures Abs() == Next(old(Abs()), WaitSem(i, try))
      ensures outcome == SemWait(old(Abs()).sems[i], old(current), try).1
    {
      StepInv(Abs(), WaitSem(i, try));
      hide ListsOk, SemsOk, MutexesOk, WaitsOk, TableOk, Block, Scheduler.SemWaitCall;
      outcome := WaitOne(i, try);
    }

    method WaitOne(i: nat, try: bool) returns (outcome: Outcome)
      requires Valid() && i < sems.Length && current != idle && Runnable(Tasks()[current])
      modifies table, sems, `semQueues, `current, `last, `decisions
      ensures Shape() && ListsOk(Links(), sems[..], mutexes[..], semQueues, mutexQueues)
      ensures Abs() == Scheduler.SemWaitCall(old(Abs()), i, try)
      ensures outcome == SemWait(old(Abs()).sems[i], old(current), try).1
    {
      hide ListsOk, SemsOk, MutexesOk, WaitsOk, TableOk, Block, WaitersOk, SemOk;
      ghost var s := Abs();
      SemQueue(s, sems[..], semQueues, i);
      if sems[i].count > 0 {
        SetSemCount(i, sems[i].count - 1);
        outcome := Acquired;
      } else if try {
        outcome := Refused;
        assert s.sems[i := s.sems[i]] == s.sems;
      } else {
        ParkOnSem(i);
        outcome := Parked;
      }
    }

    method ParkOnSem(i: nat)
      requires Valid() && i < sems.Length && sems[i].count <= 0 && current != idle && Runnable(Tasks()[current])
      modifies table, sems, `semQueues, `current, `last, `decisions
      ensures Shape() && ListsOk(Links(), sems[..], mutexes[..], semQueues, mutexQueues)
      ensures Abs() == Scheduler.SemWaitCall(old(Abs()), i, false)
    {
      ghost var s := Abs();
      QueueOnSem(i);
      hide ListsOk, Block, SemsOk, MutexesOk, WaitsOk;
      TaskBlock(SemObj(i));
    }

    method QueueOnSem(i: nat)
      requires Valid() && i < sems.Length && Runnable(Tasks()[current])
      modifies table, sems, `semQueues
      ensures Shape() && ListsOk(Links(), sems[..], mutexes[..], semQueues, mutexQueues)
      ensures var s := old(Abs());
              Abs() == s.(sems := s.sems[i := s.sems[i].(waiters := s.sems[i].waiters + [current])])
    {
      ghost var s := Abs();
      SemQueue(s, sems[..], semQueues, i);
      var head, tail := AddWaiter(sems[i].head, sems[i].tail, current, semQueues[i]);
      AppendKeeps(old(Links()), s, SemObj(i), semQueues[i], sems[i].tail, sems[..], mutexes[..], semQueues,
                  mutexQueues);
      hide Linked, Inv, Appended;
      RequeueSem(i, head, tail, semQueues[i] + [current]);
    }

    /** Stores new ends of the list of a semaphore. */
    method RequeueSem(i: nat, head: Option<Tid>, tail: Option<Tid>, ghost q: seq<Tid>)
      requires Shape() && i < sems.Length && Linked(Links(), head, tail, q)
      requires forall j :: 0 <= j < sems.Length && j != i ==> Linked(Links(), sems[j].head, sems[j].tail, semQueues[j])
      requires forall j :: 0 <= j < mutexes.Length ==> Linked(Links(), mutexes[j].head, mutexes[j].tail, mutexQueues[j])
      modifies sems, `semQueues
      ensures Shape() && ListsOk(Links(), sems[..], mutexes[..], semQueues, mutexQueues)
      ensures var s := old(Abs()); Abs() == s.(sems := s.sems[i := s.sems[i].(waiters := q)])
    {
      hide Linked;
      sems[i] := sems[i].(head := head, tail := tail);
      semQueues := semQueues[i := q];
    }

    method SetSemCount(i: nat, count: int)
      requires Shape() && i < sems.Length && ListsOk(Links(), sems[..], mutexes[..], semQueues, mutexQueues)
      modifies sems
      ensures ListsOk(Links(), sems[..], mutexes[..], semQueues, mutexQueues)
      ensures var s := old(Abs()); Abs() == s.(sems := s.sems[i := s.sems[i].(count := count)])
    {
      hide Linked;
      sems[i] := sems[i].(count := count);
    }

    /** The timer interrupt, or rtos_yield. */
    method Interrupt(tick: bool)
      requires Valid()
      modifies table, `current, `last, `decisions
      ensures Valid()
      ensures Abs() == Next(old(Abs()), if tick then Tick else Yield)
    {
      ScheduleInv(Abs(), tick);
      hide SemsOk, MutexesOk, WaitsOk, ListsOk, Schedule;
      ScheduleFromIsr(tick);
    }

    method SemSignalCall(i: nat)
      requires Valid() && Enabled(Abs(), SignalSem(i))
      modifies table, sems, `semQueues, `current, `last, `decisions
      ensures Valid()
      ensures Abs() == Next(old(Abs()), SignalSem(i))
    {
      StepInv(Abs(), SignalSem(i));
      hide ListsOk, SemsOk, MutexesOk, WaitsOk, TableOk, Schedule, Unblock;
      SignalOne(i);
    }

    method SignalOne(i: nat)
      requires Valid() && i < sems.Length
      modifies table, sems, `semQueues, `current, `last, `decisions
      ensures Shape() && ListsOk(Links(), sems[..], mutexes[..], semQueues, mutexQueues)
      ensures Abs() == Scheduler.SemSignalCall(old(Abs()), i)
    {
      hide ListsOk, SemsOk, MutexesOk, WaitsOk, Schedule;
      ghost var s := Abs();
      SemQueue(s, sems[..], semQueues, i);
      var w := UnqueueFromSem(i);
      if w.Some? {
        hide TableOk, Unblock;
        TaskUnblock(w.value);
      } else {
        if sems[i].count < sems[i].max {
          SetSemCount(i, sems[i].count + 1);
        }
        assert s.sems[i := s.sems[i]] == s.sems;
      }
    }

    method UnqueueFromSem(i: nat) returns (w: Option<Tid>)
      requires Valid() && i < sems.Length
      modifies table, sems, `semQueues
      ensures Shape() && ListsOk(Links(), sems[..], mutexes[..], semQueues, mutexQueues)
      ensures var s := old(Abs()); var q := s.sems[i].waiters;
              if q == [] then w == None && Abs() == s
              else w == Some(q[0]) && Abs() == s.(sems := s.sems[i := s.sems[i].(waiters := q[1..])])
    {
      ghost var s := Abs();
      SemQueue(s, sems[..], semQueues, i);
      ghost var q := semQueues[i];
      var head, tail;
      w, head, tail := PopWaiter(sems[i].head, sems[i].tail, q);
      if w.Some? {
        PopKeeps(old(Links()), s, SemObj(i), q, sems[..], mutexes[..], semQueues, mutexQueues);
        hide Linked, Inv;
        RequeueSem(i, head, tail, q[1..]);
      }
    }

    method MutexLockCall(i: nat, try: bool) returns (outcome: Outcome)
      requires Valid() && Enabled(Abs(), LockMutex(i, try))
      modifies table, mutexes, `mutexQueues, `current, `last, `decisions
      ensures Valid()
      ensures Abs() == Next(old(Abs()), LockMutex(i, try))
      ensures outcome == MutexLock(old(Abs()).mutexes[i], old(current), try).1
    {
      StepInv(Abs(), LockMutex(i, try));
      hide ListsOk, SemsOk, MutexesOk, WaitsOk, TableOk, Block, Scheduler.MutexLockCall;
      outcome := LockOne(i, try);
    }

    method LockOne(i: nat, try: bool) returns (outcome: Outcome)
      requires Valid() && i < mutexes.Length && current != idle && Runnable(Tasks()[current])
      modifies table, mutexes, `mutexQueues, `current, `last, `decisions
      ensures Shape() && ListsOk(Links(), sems[..], mutexes[..], semQueues, mutexQueues)
      ensures Abs() == Scheduler.MutexLockCall(old(Abs()), i, try)
      ensures outcome == MutexLock(old(Abs()).mutexes[i], old(current), try).1
    {
      hide ListsOk, SemsOk, MutexesOk, WaitsOk, TableOk, Block, WaitersOk, MutexOk;
      ghost var s := Abs();
      MutexQueue(s, mutexes[..], mutexQueues, i);
      if !mutexes[i].locked || mutexes[i].owner == Some(current) {
        SetMutex(i, true, if mutexes[i].locked then mutexes[i].recursion + 1 else 1, Some(current));
        outcome := Acquired;
      } else if try {
        outcome := Refused;
        assert s.mutexes[i := s.mutexes[i]] == s.mutexes;
      } else {
        ParkOnMutex(i);
        outcome := Parked;
      }
    }

    method ParkOnMutex(i: nat)
      requires Valid() && i < mutexes.Length && mutexes[i].locked && mutexes[i].owner != Some(current)
      requires current != idle && Runnable(Tasks()[current])
      modifies table, mutexes, `mutexQueues, `current, `last, `decisions
      ensures Shape() && ListsOk(Links(), sems[..], mutexes[..], semQueues, mutexQueues)
      ensures Abs() == Scheduler.MutexLockCall(old(Abs()), i, false)
    {
      ghost var s := Abs();
      MutexQueue(s, mutexes[..], mutexQueues, i);
      InheritInv(s, s.mutexes[i].owner);
      RaiseOwner(mutexes[i].owner);
      hide ListsOk, SemsOk, MutexesOk, WaitsOk, Schedule, TableOk;
      QueueOnMutex(i);
      TaskBlock(MutexObj(i));
    }

    /** Priority inheritance. */
    method RaiseOwner(owner: Option<Tid>)
      requires Shape() && current < table.Length && (owner.Some? ==> owner.value < table.Length)
      modifies table
      ensures Links() == old(Links())
      ensures var s := old(Abs()); Abs() == s.(tasks := Inherit(s.tasks, owner, current))
    {
      ghost var tasks := Tasks();
      assert Tasks()[current] == table[current].task;
      if owner.Some? && table[current].task.priority > table[owner.value].task.priority {
        assert Tasks()[owner.value] == table[owner.value].task;
        var raised := table[owner.value].task.(priority := table[current].task.priority);
        table[owner.value] := table[owner.value].(task := raised);
      }
      assert Tasks() == Inherit(tasks, owner, current);
      assert Links() == old(Links());
    }

    method QueueOnMutex(i: nat)
      requires Valid() && i < mutexes.Length && Runnable(Tasks()[current])
      modifies table, mutexes, `mutexQueues
      ensures Shape() && ListsOk(Links(), sems[..], mutexes[..], semQueues, mutexQueues)
      ensures var s := old(Abs());
              Abs() == s.(mutexes := s.mutexes[i := s.mutexes[i].(waiters := s.mutexes[i].waiters + [current])])
    {
      ghost var s := Abs();
      MutexQueue(s, mutexes[..], mutexQueues, i);
      var head, tail := AddWaiter(mutexes[i].head, mutexes[i].tail, current, mutexQueues[i]);
      AppendKeeps(old(Links()), s, MutexObj(i), mutexQueues[i], mutexes[i].tail, sems[..], mutexes[..], semQueues,
                  mutexQueues);
      hide Linked, Inv, Appended;
      RequeueMutex(i, head, tail, mutexQueues[i] + [current]);
    }

    /** Stores new ends of the list of a mutex. */
    method RequeueMutex(i: nat, head: Option<Tid>, tail: Option<Tid>, ghost q: seq<Tid>)
      requires Shape() && i < mutexes.Length && Linked(Links(), head, tail, q)
      requires forall j :: 0 <= j < sems.Length ==> Linked(Links(), sems[j].head, sems[j].tail, semQueues[j])
      requires forall j :: 0 <= j < mutexes.Length && j != i ==>
        Linked(Links(), mutexes[j].head, mutexes[j].tail, mutexQueues[j])
      modifies mutexes, `mutexQueues
      ensures Shape() && ListsOk(Links(), sems[..], mutexes[..], semQueues, mutexQueues)
      ensures var s := old(Abs()); Abs() == s.(mutexes := s.mutexes[i := s.mutexes[i].(waiters := q)])
    {
      hide Linked;
      mutexes[i] := mutexes[i].(head := head, tail := tail);
      mutexQueues := mutexQueues[i := q];
    }

    method SetMutex(i: nat, locked: bool, recursion: nat, owner: Option<Tid>)
      requires Shape() && i < mutexes.Length && ListsOk(Links(), sems[..], mutexes[..], semQueues, mutexQueues)
      modifies mutexes
      ensures ListsOk(Links(), sems[..], mutexes[..], semQueues, mutexQueues)
      ensures var s := old(Abs());
              Abs() == s.(mutexes := s.mutexes[i := Mutex(locked, recursion, owner, s.mutexes[i].waiters)])
    {
      hide Linked;
      mutexes[i] := mutexes[i].(locked := locked, recursion := recursion, owner := owner);
    }

    method MutexUnlockCall(i: nat)
      requires Valid() && Enabled(Abs(), UnlockMutex(i))
      modifies table, mutexes, `mutexQueues, `current, `last, `decisions
      ensures Valid()
      ensures Abs() == Next(old(Abs()), UnlockMutex(i))
    {
      ghost var s := Abs();
      StepInv(s, UnlockMutex(i));
      MutexQueue(s, mutexes[..], mutexQueues, i);
      hide ListsOk, SemsOk, MutexesOk, WaitsOk, TableOk, Unblock;
      if !mutexes[i].locked || mutexes[i].owner != Some(current) {
        assert s.mutexes[i := s.mutexes[i]] == s.mutexes;
      } else if mutexes[i].recursion > 1 {
        SetMutex(i, true, mutexes[i].recursion - 1, mutexes[i].owner);
      } else {
        Release(i);
      }
    }

    /** The last unlock: the priority goes back to base and the lock to the first waiter. */
    method Release(i: nat)
      requires Valid() && i < mutexes.Length && mutexes[i].locked && mutexes[i].owner == Some(current)
      requires mutexes[i].recursion <= 1
      modifies table, mutexes, `mutexQueues, `current, `last, `decisions
      ensures Shape() && ListsOk(Links(), sems[..], mutexes[..], semQueues, mutexQueues)
      ensures Abs() == Scheduler.MutexUnlockCall(old(Abs()), i)
    {
      hide ListsOk, SemsOk, MutexesOk, WaitsOk, Schedule, TableOk;
      ghost var s := Abs();
      MutexQueue(s, mutexes[..], mutexQueues, i);
      ResetInv(s);
      ResetOwner();
      ghost var s1 := Abs();
      MutexQueue(s1, mutexes[..], mutexQueues, i);
      var w := UnqueueFromMutex(i);
      if w.Some? {
        SetMutex(i, true, 1, w);
        assert Abs() == s1.(mutexes := s.mutexes[i := MutexUnlock(s.mutexes[i], current).0]);
        TaskUnblock(w.value);
      } else {
        SetMutex(i, false, 0, None);
        assert Abs() == s1.(mutexes := s.mutexes[i := MutexUnlock(s.mutexes[i], current).0]);
      }
    }

    method ResetOwner()
      requires Shape() && current < table.Length
      modifies table
      ensures Links() == old(Links())
      ensures var s := old(Abs()); Abs() == s.(tasks := ResetPriority(s.tasks, current))
    {
      ghost var tasks := Tasks();
      table[current] := table[current].(task := table[current].task.(priority := table[current].task.base));
      assert Tasks() == ResetPriority(tasks, current);
      assert Links() == old(Links());
    }

    method UnqueueFromMutex(i: nat) returns (w: Option<Tid>)
      requires Valid() && i < mutexes.Length
      modifies table, mutexes, `mutexQueues
      ensures Shape() && ListsOk(Links(), sems[..], mutexes[..], semQueues, mutexQueues)
      ensures var s := old(Abs()); var q := s.mutexes[i].waiters;
              if q == [] then w == None && Abs() == s
              else w == Some(q[0]) && Abs() == s.(mutexes := s.mutexes[i := s.mutexes[i].(waiters := q[1..])])
    {
      ghost var s := Abs();
      MutexQueue(s, mutexes[..], mutexQueues, i);
      ghost var q := mutexQueues[i];
      var head, tail;
      w, head, tail := PopWaiter(mutexes[i].head, mutexes[i].tail, q);
      if w.Some? {
        PopKeeps(old(Links()), s, MutexObj(i), q, sems[..], mutexes[..], semQueues, mutexQueues);
        hide Linked, Inv;
        RequeueMutex(i, head, tail, q[1..]);
      }
    }

    // ----- Event flags -----

    method SetFlags(e: nat, flags: bv32)
      requires Shape() && e < events.Length
      modifies events
      ensures var s := old(Abs()); Abs() == s.(events := s.events[e := flags])
    {
      ghost var f := EventsOf(events[..]);
      events[e] := EventBlock(flags);
      assert EventsOf(events[..]) == f[e := flags];
    }

    /** One task of the table is overwritten; no list moves. */
    method SetTask(t: Tid, u: Task)
      requires Shape() && t < table.Length
      modifies table
      ensures Links() == old(Links())
      ensures var s := old(Abs()); Abs() == s.(tasks := s.tasks[t := u])
    {
      ghost var tasks := Tasks();
      table[t] := table[t].(task := u);
      assert Tasks() == tasks[t := u];
      assert Links() == old(Links());
    }

    /** One round of the loop in rtos_event_wait: return the bits, or block and go round. */
    method EventWaitRound(e: nat, mask: bv32, clear: bool) returns (bits: Option<bv32>)
      requires Valid() && Enabled(Abs(), WaitEvent(e, mask, clear))
      modifies table, events
      ensures Valid()
      ensures Abs() == Next(old(Abs()), WaitEvent(e, mask, clear))
      ensures bits == if NoneSet(old(events[e].flags), mask) then None else Some(old(events[e].flags) & mask)
    {
      StepInv(Abs(), WaitEvent(e, mask, clear));
      hide ListsOk, SemsOk, MutexesOk, WaitsOk, TableOk, NoneSet, Cleared, Schedule;
      bits := if NoneSet(events[e].flags, mask) then None else Some(events[e].flags & mask);
      CheckEvent(e, mask, clear);
    }

    method CheckEvent(e: nat, mask: bv32, clear: bool)
      requires Shape() && e < events.Length && current < table.Length
      modifies table, events
      ensures Links() == old(Links())
      ensures Abs() == EventWaitCall(old(Abs()), e, mask, clear)
    {
      assert Abs().events[e] == events[e].flags && Abs().tasks[current] == table[current].task;
      hide NoneSet, Cleared;
      if NoneSet(events[e].flags, mask) {
        SetTask(current, table[current].task.(state := Blocked, waitObject := Some(EventObj(e)), mask := mask));
      } else if clear {
        SetFlags(e, Cleared(events[e].flags, mask));
      }
    }

    method EventClearCall(e: nat, mask: bv32)
      requires Valid() && Enabled(Abs(), ClearEvent(e, mask))
      modifies events
      ensures Valid()
      ensures Abs() == Next(old(Abs()), ClearEvent(e, mask))
    {
      StepInv(Abs(), ClearEvent(e, mask));
      assert Abs().events[e] == events[e].flags;
      hide ListsOk, SemsOk, MutexesOk, WaitsOk, TableOk, Cleared, Schedule;
      SetFlags(e, Cleared(events[e].flags, mask));
    }

    method EventSetCall(e: nat, mask: bv32)
      requires Valid() && Enabled(Abs(), SetEvent(e, mask))
      modifies table, events
      ensures Valid()
      ensures Abs() == Next(old(Abs()), SetEvent(e, mask))
    {
      ghost var s := Abs();
      StepInv(s, SetEvent(e, mask));
      assert s.events[e] == events[e].flags;
      hide ListsOk, SemsOk, MutexesOk, WaitsOk, Raised, Schedule, Prefix;
      SetFlags(e, Raised(events[e].flags, mask));
      WakeAll(e);
    }

    /** Every task blocked on the event becomes ready, whatever bits it waits for. */
    method WakeAll(e: nat)
      requires Shape() && Prefix(Tasks())
      modifies table
      ensures Links() == old(Links())
      ensures var s := old(Abs());
              Abs() == s.(tasks := seq(|s.tasks|, i requires 0 <= i < |s.tasks| => EventReadied(s.tasks[i], e)))
    {
      hide Prefix, TaskCount;
      ghost var s := Abs();
      var count := GetTaskCount();
      var i := 0;
      while i < count
        invariant 0 <= i <= count
        invariant Abs() == s.(tasks := WokenUpTo(s.tasks, e, i))
        invariant Links() == old(Links())
      {
        WokenTable(s.tasks, e, i);
        var r := GetTaskByIndex(i);
        assert table[i].task == Tasks()[i] == s.tasks[i];
        if table[i].task.state == Blocked && table[i].task.waitObject == Some(EventObj(e)) {
          SetTask(i, table[i].task.(state := Ready, waitObject := None));
        }
        i := i + 1;
      }
      WokenRest(s.tasks, e);
    }

    // ----- rtos_delay_ticks, rtos_task_create, rtos_task_exit -----

    method DelayTicks(ticks: nat)
      requires Valid() && Enabled(Abs(), Delay(ticks))
      modifies table
      ensures Valid()
      ensures Abs() == Next(old(Abs()), Delay(ticks))
    {
      StepInv(Abs(), Delay(ticks));
      DelayStep(Abs(), ticks);
      assert Abs().tasks[current] == table[current].task;
      hide Next, Inv, Enabled, ListsOk, SemsOk, MutexesOk, WaitsOk, TableOk;
      if ticks != 0 {
        SetTask(current, table[current].task.(sleep := ticks, state := Sleeping));
      }
    }

    /** `stack` says whether the allocation of the stack succeeds; if not, nothing changes. */
    method TaskCreate(priority: nat, stack: bool) returns (slot: Option<Tid>)
      requires Valid() && Enabled(Abs(), Create(priority))
      modifies table
      ensures Valid()
      ensures Abs() == if stack then Next(old(Abs()), Create(priority)) else old(Abs())
      ensures slot == if stack then FreeSlot(old(Abs()).tasks, 0) else None
      ensures slot.Some? ==>
        var t := Abs().tasks[slot.value];
        && t.state == Ready && t.priority == t.base == (if priority > 15 then 15 else priority)
        && t.sleep == 0 && t.runtime == 0 && t.waitObject == None
        && (forall i :: 0 <= i < |Abs().tasks| && i != slot.value ==> Abs().tasks[i] == old(Abs()).tasks[i])
    {
      hide Next, Inv, Enabled, ListsOk, FreeSlot, NewTask;
      StepInv(Abs(), Create(priority));
      CreateStep(Abs(), priority);
      slot := FindFreeSlot();
      if !stack {
        return None;
      }
      if slot.Some? {
        NewFields(priority);
        SetTask(slot.value, NewTask(priority));
      }
    }

    method FindFreeSlot() returns (slot: Option<Tid>)
      ensures slot == FreeSlot(Tasks(), 0)
    {
      var i := 0;
      while i < table.Length
        invariant 0 <= i <= table.Length
        invariant FreeSlot(Tasks(), 0) == FreeSlot(Tasks(), i)
      {
        assert Tasks()[i] == table[i].task;
        if table[i].task.state == Unused || table[i].task.state == Terminated {
          return Some(i);
        }
        i := i + 1;
      }
      slot := None;
    }

    method TaskExit()
      requires Valid() && Enabled(Abs(), Exit)
      modifies table
      ensures Valid()
      ensures Abs() == Next(old(Abs()), Exit)
    {
      StepInv(Abs(), Exit);
      assert Abs().tasks[current] == table[current].task;
      assert Next(Abs(), Exit) == ExitCall(Abs());
      hide Next, Inv, ListsOk, SemsOk, MutexesOk, WaitsOk, TableOk, Schedule;
      SetTask(current, table[current].task.(state := Terminated));
    }
  }

  lemma DelayStep(s: Sys, ticks: nat)
    requires Enabled(s, Delay(ticks))
    ensures Next(s, Delay(ticks)) == DelayCall(s, ticks)
  {
  }

  lemma NewFields(priority: nat)
    ensures var t := NewTask(priority);
      && t.state == Ready && t.priority == t.base == (if priority > 15 then 15 else priority)
      && t.sleep == 0 && t.runtime == 0 && t.waitObject == None
  {
  }

  lemma CreateStep(s: Sys, priority: nat)
    requires Enabled(s, Create(priority))
    ensures Next(s, Create(priority)) == CreateCall(s, priority)
  {
    hide FreeSlot;
  }

  /** The table when the first i tasks have been woken for event e. */
  ghost function WokenUpTo(tasks: seq<Task>, e: nat, i: nat): (r: seq<Task>)
    ensures |r| == |tasks|
  {
    seq(|tasks|, x requires 0 <= x < |tasks| => if x < i then EventReadied(tasks[x], e) else tasks[x])
  }

  lemma WokenTable(tasks: seq<Task>, e: nat, i: nat)
    requires i < TaskCount(tasks) && Prefix(tasks)
    ensures Prefix(WokenUpTo(tasks, e, i)) && TaskCount(WokenUpTo(tasks, e, i)) == TaskCount(tasks)
    ensures WokenUpTo(tasks, e, i + 1) == WokenUpTo(tasks, e, i)[i := EventReadied(tasks[i], e)]
  {
    SameCount(tasks, WokenUpTo(tasks, e, i));
  }

  lemma WokenRest(tasks: seq<Task>, e: nat)
    requires Prefix(tasks)
    ensures WokenUpTo(tasks, e, TaskCount(tasks))
         == seq(|tasks|, i requires 0 <= i < |tasks| => EventReadied(tasks[i], e))
  {
    PrefixCount(tasks);
  }

  /** The queue of a semaphore in the abstract state is the ghost queue. */
  lemma SemQueue(s: Sys, sems: seq<SemBlock>, semQ: seq<seq<Tid>>, i: nat)
    requires Inv(s) && |sems| == |semQ| && s.sems == SemsOf(sems, semQ) && i < |sems|
    ensures WaitersOk(semQ[i], SemObj(i), s.tasks)
    ensures s.sems[i] == Sem(sems[i].count, sems[i].max, semQ[i]) && SemOk(s.sems[i])
  {
    assert s.sems[i].waiters == semQ[i];
  }

  lemma MutexQueue(s: Sys, mutexes: seq<MutexBlock>, mutexQ: seq<seq<Tid>>, i: nat)
    requires Inv(s) && |mutexes| == |mutexQ| && s.mutexes == MutexesOf(mutexes, mutexQ) && i < |mutexes|
    ensures WaitersOk(mutexQ[i], MutexObj(i), s.tasks)
    ensures var m := mutexes[i]; s.mutexes[i] == Mutex(m.locked, m.recursion, m.owner, mutexQ[i])
    ensures MutexOk(s.mutexes[i])
    ensures mutexes[i].owner.Some? ==> mutexes[i].owner.value < |s.tasks|
  {
    assert s.mutexes[i].waiters == mutexQ[i];
  }

  lemma AppendKeeps(links: seq<Option<Tid>>, s: Sys, obj: WaitObject, q: seq<Tid>, tail: Option<Tid>,
                    sems: seq<SemBlock>, mutexes: seq<MutexBlock>, semQ: seq<seq<Tid>>, mutexQ: seq<seq<Tid>>)
    requires Inv(s) && |links| == |s.tasks| && ListsOk(links, sems, mutexes, semQ, mutexQ)
    requires s.sems == SemsOf(sems, semQ) && s.mutexes == MutexesOf(mutexes, mutexQ)
    requires WaitersOk(q, obj, s.tasks) && tail == (if q == [] then None else Some(q[|q| - 1]))
    requires Runnable(s.tasks[s.current])
    ensures var links' := Appended(links, tail, s.current);
      && (forall j :: 0 <= j < |sems| && SemObj(j) != obj ==> Linked(links', sems[j].head, sems[j].tail, semQ[j]))
      && (forall j :: 0 <= j < |mutexes| && MutexObj(j) != obj ==>
            Linked(links', mutexes[j].head, mutexes[j].tail, mutexQ[j]))
  {
    OthersKept(links, Appended(links, tail, s.current), s.tasks, obj, sems, mutexes, semQ, mutexQ);
  }

  lemma PopKeeps(links: seq<Option<Tid>>, s: Sys, obj: WaitObject, q: seq<Tid>,
                 sems: seq<SemBlock>, mutexes: seq<MutexBlock>, semQ: seq<seq<Tid>>, mutexQ: seq<seq<Tid>>)
    requires Inv(s) && |links| == |s.tasks| && ListsOk(links, sems, mutexes, semQ, mutexQ)
    requires s.sems == SemsOf(sems, semQ) && s.mutexes == MutexesOf(mutexes, mutexQ)
    requires WaitersOk(q, obj, s.tasks) && q != []
    ensures var links' := links[q[0] := None];
      && (forall j :: 0 <= j < |sems| && SemObj(j) != obj ==> Linked(links', sems[j].head, sems[j].tail, semQ[j]))
      && (forall j :: 0 <= j < |mutexes| && MutexObj(j) != obj ==>
            Linked(links', mutexes[j].head, mutexes[j].tail, mutexQ[j]))
  {
    OthersKept(links, links[q[0] := None], s.tasks, obj, sems, mutexes, semQ, mutexQ);
  }

  lemma BootInv(s: Sys)
    requires s.tasks != [] && s.current == s.idle == 0
    requires s.tasks[0] == Task(Running, 0, 0, 0, 0, None, 0)
    requires forall t :: 0 < t < |s.tasks| ==> s.tasks[t] == Task(Unused, 0, 0, 0, 0, None, 0)
    requires forall i :: 0 <= i < |s.sems| ==> 0 <= s.sems[i].count && s.sems[i].waiters == []
    requires forall i :: 0 <= i < |s.mutexes| ==> s.mutexes[i] == Mutex(false, 0, None, [])
    ensures Inv(s)
  {
  }

  /** Every wait queue is a linked list through the table. */
  ghost predicate ListsOk(links: seq<Option<Tid>>, sems: seq<SemBlock>, mutexes: seq<MutexBlock>,
                          semQ: seq<seq<Tid>>, mutexQ: seq<seq<Tid>>)
  {
    && |sems| == |semQ|
    && |mutexes| == |mutexQ|
    && (forall j :: 0 <= j < |sems| ==> Linked(links, sems[j].head, sems[j].tail, semQ[j]))
    && (forall j :: 0 <= j < |mutexes| ==> Linked(links, mutexes[j].head, mutexes[j].tail, mutexQ[j]))
  }

  /** Relinking unblocked tasks and waiters of one object leaves all other lists alone:
      a task has one wait object. */
  lemma OthersKept(links: seq<Option<Tid>>, links': seq<Option<Tid>>, tasks: seq<Task>, obj: WaitObject,
                   sems: seq<SemBlock>, mutexes: seq<MutexBlock>, semQ: seq<seq<Tid>>, mutexQ: seq<seq<Tid>>)
    requires |links'| == |links| == |tasks| && ListsOk(links, sems, mutexes, semQ, mutexQ)
    requires SemsOk(SemsOf(sems, semQ), tasks) && MutexesOk(MutexesOf(mutexes, mutexQ), tasks)
    requires forall x :: 0 <= x < |links| && links'[x] != links[x] ==>
      tasks[x].state != Blocked || BlockedOn(tasks[x], obj)
    ensures forall j :: 0 <= j < |sems| && SemObj(j) != obj ==> Linked(links', sems[j].head, sems[j].tail, semQ[j])
    ensures forall j :: 0 <= j < |mutexes| && MutexObj(j) != obj ==>
      Linked(links', mutexes[j].head, mutexes[j].tail, mutexQ[j])
  {
    forall j | 0 <= j < |sems| && SemObj(j) != obj ensures Linked(links', sems[j].head, sems[j].tail, semQ[j]) {
      assert WaitersOk(SemsOf(sems, semQ)[j].waiters, SemObj(j), tasks);
      LinkedKept(links, links', sems[j].head, sems[j].tail, semQ[j]);
    }
    forall j | 0 <= j < |mutexes| && MutexObj(j) != obj
      ensures Linked(links', mutexes[j].head, mutexes[j].tail, mutexQ[j])
    {
      assert WaitersOk(MutexesOf(mutexes, mutexQ)[j].waiters, MutexObj(j), tasks);
      LinkedKept(links, links', mutexes[j].head, mutexes[j].tail, mutexQ[j]);
    }
  }

  ghost function Appended(links: seq<Option<Tid>>, tail: Option<Tid>, t: Tid): (r: seq<Option<Tid>>)
    requires t < |links| && (tail.Some? ==> tail.value < |links|)
    ensures |r| == |links|
  {
    var l := links[t := None];
    if tail.Some? then l[tail.value := Some(t)] else l
  }

  lemma LinkedAppend(links: seq<Option<Tid>>, head: Option<Tid>, tail: Option<Tid>, q: seq<Tid>, t: Tid)
    requires t < |links| && Linked(links, head, tail, q) && t !in q && Distinct(q)
    ensures tail.Some? ==> tail.value < |links|
    ensures Linked(Appended(links, tail, t), if head.None? then Some(t) else head, Some(t), q + [t])
  {
    var r := Appended(links, tail, t);
    var q' := q + [t];
    forall i | 0 <= i < |q'| ensures r[q'[i]] == After(q', i) {
      if i + 1 < |q| { assert q[i] != q[|q| - 1]; }
    }
  }

  lemma LinkedPop(links: seq<Option<Tid>>, head: Option<Tid>, tail: Option<Tid>, q: seq<Tid>)
    requires Linked(links, head, tail, q) && Distinct(q) && q != []
    ensures var h := links[q[0]]; Linked(links[q[0] := None], h, if h.None? then None else tail, q[1..])
  {
    var q' := q[1..];
    assert links[q[0]] == After(q, 0);
    forall i | 0 <= i < |q'|
      ensures q'[i] < |links| && links[q[0] := None][q'[i]] == After(q', i)
    {
      var j := i + 1;
      assert q'[i] == q[j] && q[0] != q[j];
      assert links[q[j]] == After(q, j);
    }
  }

  /** A list none of whose links changed. */
  lemma LinkedKept(links: seq<Option<Tid>>, links': seq<Option<Tid>>, head: Option<Tid>, tail: Option<Tid>, q: seq<Tid>)
    requires Linked(links, head, tail, q) && |links'| == |links|
    requires forall i :: 0 <= i < |q| ==> links'[q[i]] == links[q[i]]
    ensures Linked(links', head, tail, q)
  {
  }

  lemma BlockedTable(tasks: seq<Task>, current: Tid, idle: Tid, obj: WaitObject)
    requires TableOk(tasks, current, idle) && current != idle
    ensures TableOk(tasks[current := tasks[current].(state := Blocked, waitObject := Some(obj))], current, idle)
  {
    assert TaskOk(tasks[current]);
  }

  function SemsOf(sems: seq<SemBlock>, queues: seq<seq<Tid>>): (r: seq<Sem>)
    requires |sems| == |queues|
    ensures |r| == |sems|
  {
    seq(|sems|, i requires 0 <= i < |sems| => Sem(sems[i].count, sems[i].max, queues[i]))
  }

  function MutexesOf(mutexes: seq<MutexBlock>, queues: seq<seq<Tid>>): (r: seq<Mutex>)
    requires |mutexes| == |queues|
    ensures |r| == |mutexes|
  {
    seq(|mutexes|, i requires 0 <= i < |mutexes| =>
      Mutex(mutexes[i].locked, mutexes[i].recursion, mutexes[i].owner, queues[i]))
  }

  function EventsOf(events: seq<EventBlock>): (r: seq<bv32>)
    ensures |r| == |events|
  {
    seq(|events|, i requires 0 <= i < |events| => events[i].flags)
  }

  /** The table when the first i sleepers have been counted down. */
  ghost function TickedUpTo(tasks: seq<Task>, i: nat): (r: seq<Task>)
    ensures |r| == |tasks|
  {
    seq(|tasks|, x requires 0 <= x < |tasks| => if x < i then Ticked(tasks[x]) else tasks[x])
  }

  lemma TickedTable(tasks: seq<Task>, i: nat)
    requires i < TaskCount(tasks) && Prefix(tasks)
    ensures Prefix(TickedUpTo(tasks, i)) && TaskCount(TickedUpTo(tasks, i)) == TaskCount(tasks)
    ensures TickedUpTo(tasks, i + 1) == TickedUpTo(tasks, i)[i := Ticked(tasks[i])]
  {
    SameCount(tasks, TickedUpTo(tasks, i));
  }

  lemma TickedRest(tasks: seq<Task>)
    requires Prefix(tasks)
    ensures TickedUpTo(tasks, TaskCount(tasks)) == TickAll(tasks)
  {
    PrefixCount(tasks);
  }

  /** The slot of round i: start_idx plus the round, modulo the count. */
  function RoundIndex(last: nat, n: nat, i: nat): nat
    requires n > 0
  {
    ((last + 1) % n + i) % n
  }

  lemma SweptVisit(last: nat, n: nat, i: nat)
    requires n > 0
    ensures Visit(last, n, i) == RoundIndex(last, n, i) < n
  {
  }

  lemma BestStep(tasks: seq<Task>, last: nat, n: nat, i: nat)
    requires 0 < n <= |tasks| && i < n
    requires forall t :: 0 <= t < |tasks| ==> TaskOk(tasks[t])
    ensures var x, b := Visit(last, n, i), Best(tasks, last, n, i);
            && tasks[x].priority > -1
            && Best(tasks, last, n, i + 1)
               == (if Runnable(tasks[x]) && (b.None? || b.value >= n || tasks[x].priority > tasks[b.value].priority)
                   then Some(x) else b)
  {
    assert TaskOk(tasks[Visit(last, n, i)]);
  }

  /** The table in the middle of the sweep. */
  ghost function Swept(tasks: seq<Task>, last: nat, n: nat, i: nat): (r: seq<Task>)
    requires 0 < n <= |tasks|
    ensures |r| == |tasks|
  {
    seq(|tasks|, x requires 0 <= x < |tasks| => if x < n && Dist(last, n, x) < i then Aged(tasks[x]) else tasks[x])
  }

  lemma SweptNone(tasks: seq<Task>, last: nat, n: nat)
    requires 0 < n <= |tasks|
    ensures Swept(tasks, last, n, 0) == tasks && Best(tasks, last, n, 0) == None
  {
  }

  lemma SweptTable(tasks: seq<Task>, last: nat, n: nat, i: nat)
    requires 0 < n <= |tasks| && i < n && n == TaskCount(tasks) && Prefix(tasks)
    ensures Prefix(Swept(tasks, last, n, i)) && TaskCount(Swept(tasks, last, n, i)) == n
    ensures Swept(tasks, last, n, i)[Visit(last, n, i)] == tasks[Visit(last, n, i)]
    ensures Swept(tasks, last, n, i + 1)
         == Swept(tasks, last, n, i)[Visit(last, n, i) := Aged(tasks[Visit(last, n, i)])]
  {
    hide Prefix, TaskCount, Visit, Dist, Aged;
    SweptPrefix(tasks, last, n, i);
    SweptNext(tasks, last, n, i);
  }

  lemma SweptPrefix(tasks: seq<Task>, last: nat, n: nat, i: nat)
    requires 0 < n <= |tasks| && n == TaskCount(tasks) && Prefix(tasks)
    ensures Prefix(Swept(tasks, last, n, i)) && TaskCount(Swept(tasks, last, n, i)) == n
  {
    hide TaskCount, Dist;
    SameCount(tasks, Swept(tasks, last, n, i));
  }

  lemma SweptNext(tasks: seq<Task>, last: nat, n: nat, i: nat)
    requires 0 < n <= |tasks| && i < n
    ensures var v := Visit(last, n, i);
      && v < n && Swept(tasks, last, n, i)[v] == tasks[v]
      && Swept(tasks, last, n, i + 1) == Swept(tasks, last, n, i)[v := Aged(tasks[v])]
  {
    hide Aged, Visit, Dist;
    SweptVisit(last, n, i);
    VisitDist(last, n, i);
    forall x | 0 <= x < n && Dist(last, n, x) == i ensures x == Visit(last, n, i) {
      DistVisit(last, n, x);
    }
  }

  lemma SweptAll(tasks: seq<Task>, last: nat, n: nat)
    requires 0 < n <= |tasks| && n == TaskCount(tasks) && Prefix(tasks)
    ensures Swept(tasks, last, n, n) == AfterPick(tasks, None)
  {
    PrefixCount(tasks);
  }
}