/**
  Progress of waiting tasks over whole runs of the scheduler: a ready task is chosen
  after a bounded number of decisions, a sleeping task wakes on exactly the right
  timer interrupt, and wait queues are served in order.
 */
module Fairness {
  import opened Prelude
  import opened SyncObjects
  import opened Scheduler

  // ----- Bounded waiting -----

  ghost predicate Waiting(s: Sys, t: Tid) {
    && t < |s.tasks|
    && s.tasks[t].state == Ready
    && t != s.current
  }

  ghost function RankOf(n: nat, priority: int, dist: nat): int {
    if priority < MAX_PRIORITY then MAX_PRIORITY - priority + n else dist + 1
  }

  /** How many decisions may pass before t is chosen: first its priority climbs to the
      top, then every decision brings the scan at least one slot closer. */
  ghost function Rank(s: Sys, t: Tid): int
    requires t < |s.tasks|
  {
    var n := TaskCount(s.tasks);
    if n == 0 then 0 else RankOf(n, s.tasks[t].priority, Dist(s.last, n, t))
  }

  /** The scan that starts behind c reaches t earlier than the one that passed c first. */
  lemma DistShrinks(last: nat, n: nat, c: nat, t: nat)
    requires c < n && t < n && c != t && Dist(last, n, c) < Dist(last, n, t)
    ensures Dist(c, n, t) < Dist(last, n, t)
  {
    var dc, dt := Dist(last, n, c), Dist(last, n, t);
    var qc, qt := (c - last - 1) / n, (t - last - 1) / n;
    DivMod(t - c - 1, n, qt - qc, dt - dc - 1);
  }

  lemma TickKeepsWaiting(s: Sys, tick: bool, t: Tid)
    requires Waiting(s, t) && s.current < |s.tasks|
    ensures var t1 := Charged(if tick then TickAll(s.tasks) else s.tasks, s.current);
            t1[t] == s.tasks[t] && TaskCount(t1) == TaskCount(s.tasks)
  {
    SameCount(s.tasks, Charged(if tick then TickAll(s.tasks) else s.tasks, s.current));
  }

  lemma AfterPickCount(tasks: seq<Task>, c: Option<Tid>)
    ensures TaskCount(AfterPick(tasks, c)) == TaskCount(tasks)
  {
    SameCount(tasks, AfterPick(tasks, c));
  }

  lemma DispatchCount(tasks: seq<Task>, prev: Tid, next: Tid)
    requires prev < |tasks| && next < |tasks| && tasks[next].state != Unused
    ensures TaskCount(Dispatch(tasks, prev, next)) == TaskCount(tasks)
  {
    SameCount(tasks, Dispatch(tasks, prev, next));
  }

  lemma WinnerIsCloser(tasks: seq<Task>, current: Tid, idle: Tid, last: nat, t: Tid)
    requires TableOk(tasks, current, idle) && t < |tasks| && tasks[t].state == Ready
    requires Decided(tasks, current, idle, last).1 != t
    ensures var c := Pick(tasks, last); var n := TaskCount(tasks);
            && c.Some? && c.value != t && c.value < n && t < n <= |tasks|
            && tasks[c.value].state != Unused
            && (tasks[t].priority == MAX_PRIORITY ==> Dist(last, n, c.value) < Dist(last, n, t))
  {
    PickWins(tasks, last);
    PrefixCount(tasks);
    var c := Pick(tasks, last);
    assert c.Some? && c.value != t;
    hide Pick, AfterPick, Dispatch, Dist, TaskCount;
    assert TaskOk(tasks[t]) && TaskOk(tasks[c.value]);
  }

  lemma DecidedCount(tasks: seq<Task>, current: Tid, idle: Tid, last: nat)
    requires TableOk(tasks, current, idle)
    ensures TaskCount(Decided(tasks, current, idle, last).0) == TaskCount(tasks)
  {
    PickWins(tasks, last);
    var c := Pick(tasks, last);
    var next := Decided(tasks, current, idle, last).1;
    assert tasks[next].state != Unused && AfterPick(tasks, c)[next].state != Unused;
    hide TableOk, Pick, AfterPick, Dispatch, TaskCount;
    AfterPickCount(tasks, c);
    DispatchCount(AfterPick(tasks, c), current, next);
  }

  /** A decision that passes t over: t ages. */
  lemma DecidedAged(tasks: seq<Task>, current: Tid, idle: Tid, last: nat, t: Tid)
    requires current < |tasks| && idle < |tasks| && t < |tasks| && t != current
    requires Decided(tasks, current, idle, last).1 != t
    requires Pick(tasks, last).Some? && Pick(tasks, last).value < |tasks|
    ensures Decided(tasks, current, idle, last).0[t] == Aged(tasks[t])
  {
    hide Pick, Aged;
  }

  lemma ScheduleRank(s: Sys, tick: bool, t: Tid)
    requires TableOk(s.tasks, s.current, s.idle)
    requires Waiting(s, t) && t != Schedule(s, tick).current
    ensures Rank(Schedule(s, tick), t) + 1 <= Rank(s, t)
  {
    var t1 := Charged(if tick then TickAll(s.tasks) else s.tasks, s.current);
    var n := TaskCount(s.tasks);
    ChargedTable(s.tasks, s.current, s.idle, tick);
    TickKeepsWaiting(s, tick, t);
    assert TaskOk(t1[t]);
    hide TableOk, SameBlocked, Charged, TickAll, Pick, AfterPick, Dispatch, Dist, TaskCount;
    WinnerIsCloser(t1, s.current, s.idle, s.last, t);
    DecidedCount(t1, s.current, s.idle, s.last);
    DecidedAged(t1, s.current, s.idle, s.last, t);
    var c := Pick(t1, s.last).value;
    if s.tasks[t].priority == MAX_PRIORITY {
      DistShrinks(s.last, n, c, t);
    }
    assert Rank(s, t) == RankOf(n, s.tasks[t].priority, Dist(s.last, n, t));
    assert Rank(Schedule(s, tick), t) == RankOf(n, Aged(s.tasks[t]).priority, Dist(c, n, t));
  }

  /** Between decisions a rank only falls: nobody lowers the priority of a waiting task. */
  lemma RankKept(s: Sys, s': Sys, t: Tid)
    requires t < |s.tasks| == |s'.tasks| && TaskCount(s'.tasks) == TaskCount(s.tasks) && s'.last == s.last
    requires s.tasks[t].priority <= s'.tasks[t].priority <= MAX_PRIORITY
    ensures Rank(s', t) <= Rank(s, t)
  {
  }

  lemma BlockRank(s: Sys, obj: WaitObject, t: Tid)
    requires TableOk(s.tasks, s.current, s.idle) && s.current != s.idle
    requires Waiting(s, t) && t != Block(s, s.current, obj).current
    ensures Rank(Block(s, s.current, obj), t) + 1 <= Rank(s, t)
  {
    var c := s.current;
    var u := s.tasks[c].(state := Blocked, waitObject := Some(obj));
    var s1 := s.(tasks := s.tasks[c := u]);
    assert TaskOk(s.tasks[c]) && TaskOk(s.tasks[t]) && TaskOk(u) && s.tasks[c].state != Unused;
    hide Rank, Schedule, TableOk, TaskCount;
    OneChange(s.tasks, c, s.idle, c, u);
    RankKept(s, s1, t);
    ScheduleRank(s1, false, t);
  }

  lemma UnblockRank(s: Sys, w: Option<Tid>, t: Tid)
    requires TableOk(s.tasks, s.current, s.idle)
    requires w.Some? ==> w.value < |s.tasks| && s.tasks[w.value].state == Blocked
    requires Waiting(s, t) && t != Unblock(s, w).current
    ensures Rank(Unblock(s, w), t) + Unblock(s, w).decisions - s.decisions <= Rank(s, t)
  {
    if w.Some? {
      var u := Readied(s.tasks[w.value]);
      var s1 := s.(tasks := s.tasks[w.value := u]);
      assert TaskOk(s.tasks[w.value]) && TaskOk(s.tasks[t]) && TaskOk(u);
      hide Rank, TableOk, TaskCount;
      OneChange(s.tasks, s.current, s.idle, w.value, u);
      RankKept(s, s1, t);
      if s1.tasks[w.value].priority > s1.tasks[s.current].priority {
        ScheduleRank(s1, false, t);
      }
    }
  }

  lemma SemRank(s: Sys, step: Step, t: Tid)
    requires Inv(s) && Enabled(s, step) && (step.WaitSem? || step.SignalSem?)
    requires Waiting(s, t) && t != Next(s, step).current
    ensures Rank(Next(s, step), t) + Next(s, step).decisions - s.decisions <= Rank(s, t)
  {
    var (sem, outcome) := SemWait(s.sems[step.sem], s.current, step.WaitSem? && step.try);
    var (sem', w) := SemSignal(s.sems[step.sem]);
    assert w.Some? ==> w.value < |s.tasks| && s.tasks[w.value].state == Blocked;
    hide Rank, SemsOk, MutexesOk, WaitsOk;
    if step.WaitSem? && outcome == Parked {
      assert Rank(s.(sems := s.sems[step.sem := sem]), t) == Rank(s, t) by {
        RankSame(s, s.(sems := s.sems[step.sem := sem]), t);
      }
      BlockRank(s.(sems := s.sems[step.sem := sem]), SemObj(step.sem), t);
    } else if step.WaitSem? {
      RankSame(s, Next(s, step), t);
    } else {
      RankSame(s, s.(sems := s.sems[step.sem := sem']), t);
      UnblockRank(s.(sems := s.sems[step.sem := sem']), w, t);
    }
  }

  lemma RankSame(s: Sys, s': Sys, t: Tid)
    requires t < |s.tasks| && s'.tasks == s.tasks && s'.last == s.last
    ensures Rank(s', t) == Rank(s, t)
  {
  }

  lemma LockRank(s: Sys, i: nat, try: bool, t: Tid)
    requires Inv(s) && Enabled(s, LockMutex(i, try))
    requires Waiting(s, t) && t != Next(s, LockMutex(i, try)).current
    ensures Rank(Next(s, LockMutex(i, try)), t) + Next(s, LockMutex(i, try)).decisions - s.decisions <= Rank(s, t)
  {
    var (m, outcome) := MutexLock(s.mutexes[i], s.current, try);
    var s1 := s.(mutexes := s.mutexes[i := m]);
    if outcome == Parked {
      InheritInv(s, s.mutexes[i].owner);
      var s2 := s1.(tasks := Inherit(s.tasks, s.mutexes[i].owner, s.current));
      assert TaskOk(s.tasks[t]) && TaskOk(s.tasks[s.current]);
      SameCount(s.tasks, s2.tasks);
      RankKept(s, s2, t);
      hide Rank, SemsOk, MutexesOk, WaitsOk;
      BlockRank(s2, MutexObj(i), t);
    } else {
      RankSame(s, s1, t);
    }
  }

  lemma UnlockRank(s: Sys, i: nat, t: Tid)
    requires Inv(s) && Enabled(s, UnlockMutex(i))
    requires Waiting(s, t) && t != Next(s, UnlockMutex(i)).current
    ensures Rank(Next(s, UnlockMutex(i)), t) + Next(s, UnlockMutex(i)).decisions - s.decisions <= Rank(s, t)
  {
    var m := s.mutexes[i];
    var (m', w) := MutexUnlock(m, s.current);
    var s1 := s.(mutexes := s.mutexes[i := m']);
    if m.locked && m.owner == Some(s.current) && m.recursion <= 1 {
      ResetInv(s);
      var s2 := s1.(tasks := ResetPriority(s.tasks, s.current));
      assert TaskOk(s.tasks[t]);
      assert w.Some? ==> w.value < |s.tasks| && s2.tasks[w.value].state == Blocked;
      SameCount(s.tasks, s2.tasks);
      RankKept(s, s2, t);
      hide Rank, SemsOk, MutexesOk, WaitsOk;
      UnblockRank(s2, w, t);
    } else {
      RankSame(s, s1, t);
    }
  }

  /** Whatever the current task does, the rank pays for every decision. */
  lemma StepRank(s: Sys, step: Step, t: Tid)
    requires Inv(s) && Enabled(s, step)
    requires Waiting(s, t) && Waiting(Next(s, step), t) && TaskCount(Next(s, step).tasks) == TaskCount(s.tasks)
    ensures Rank(Next(s, step), t) + Next(s, step).decisions - s.decisions <= Rank(s, t)
  {
    if step.Tick? || step.Yield? {
      ScheduleRank(s, step.Tick?, t);
    } else if step.WaitSem? || step.SignalSem? {
      SemRank(s, step, t);
    } else if step.LockMutex? {
      LockRank(s, step.mutex, step.try, t);
    } else if step.UnlockMutex? {
      UnlockRank(s, step.mutex, t);
    } else {
      assert TaskOk(s.tasks[t]);
      assert Next(s, step).tasks[t] == s.tasks[t];
      RankKept(s, Next(s, step), t);
    }
  }

  /** t waits, and the table does not grow, from the first to the last state. */
  ghost predicate WaitsThroughout(states: seq<Sys>, t: Tid) {
    && states != []
    && (forall i :: 0 <= i < |states| ==>
          Waiting(states[i], t) && TaskCount(states[i].tasks) == TaskCount(states[0].tasks))
  }

  lemma {:induction false} RunRank(states: seq<Sys>, steps: seq<Step>, t: Tid, i: nat)
    requires Run(states, steps) && WaitsThroughout(states, t) && i <= |steps|
    ensures Rank(states[i], t) + states[i].decisions - states[0].decisions <= Rank(states[0], t)
  {
    hide Inv, Next, Enabled, Rank;
    if i > 0 {
      RunRank(states, steps, t, i - 1);
      RunInv(states, steps, i - 1);
      assert states[i] == Next(states[i - 1], steps[i - 1]);
      StepRank(states[i - 1], steps[i - 1], t);
    }
  }

  /** Bounded waiting: fewer than (15 - priority) + count decisions pass over a ready task. */
  lemma BoundedWaiting(states: seq<Sys>, steps: seq<Step>, t: Tid)
    requires Run(states, steps) && WaitsThroughout(states, t)
    ensures var s := states[0];
            states[|steps|].decisions - s.decisions < MAX_PRIORITY - s.tasks[t].priority + TaskCount(s.tasks)
  {
    RunRank(states, steps, t, |steps|);
    RunInv(states, steps, |steps|);
    RunInv(states, steps, 0);
    PrefixCount(states[|steps|].tasks);
    assert TaskOk(states[0].tasks[t]) && TaskOk(states[|steps|].tasks[t]);
  }

  // ----- Sleeping -----

  /** A decision leaves the tasks that cannot run alone. */
  lemma DecidedRunnable(tasks: seq<Task>, current: Tid, idle: Tid, last: nat, t: Tid)
    requires TableOk(tasks, current, idle) && t < |tasks|
    ensures var u := Decided(tasks, current, idle, last).0[t];
            if Runnable(tasks[t]) then Runnable(u) else u == tasks[t]
  {
    PickWins(tasks, last);
    var c := Pick(tasks, last);
    var next := Decided(tasks, current, idle, last).1;
    assert Runnable(tasks[next]);
    assert c.Some? ==> c.value == next;
    hide Pick, TableOk;
    var m := AfterPick(tasks, c);
    assert m[t].state == tasks[t].state && (!Runnable(tasks[t]) ==> m[t] == tasks[t]);
    assert Runnable(m[next]);
    hide AfterPick;
  }

  lemma ScheduleSleep(s: Sys, tick: bool, t: Tid)
    requires TableOk(s.tasks, s.current, s.idle) && t < |s.tasks| && s.tasks[t].state == Sleeping
    ensures var u := Schedule(s, tick).tasks[t];
            if !tick then u.state == Sleeping && u.sleep == s.tasks[t].sleep
            else if s.tasks[t].sleep == 1 then Runnable(u)
            else u.state == Sleeping && u.sleep == s.tasks[t].sleep - 1
  {
    var t1 := Charged(if tick then TickAll(s.tasks) else s.tasks, s.current);
    ChargedTable(s.tasks, s.current, s.idle, tick);
    assert TaskOk(s.tasks[t]);
    assert tick ==> t1[t].state == Ticked(s.tasks[t]).state && t1[t].sleep == Ticked(s.tasks[t]).sleep;
    assert !tick ==> t1[t].state == s.tasks[t].state && t1[t].sleep == s.tasks[t].sleep;
    hide Pick, TableOk, SameBlocked, Charged, TickAll, AfterPick, Dispatch;
    DecidedRunnable(t1, s.current, s.idle, s.last, t);
  }

  lemma UnblockSleep(s: Sys, w: Option<Tid>, t: Tid)
    requires TableOk(s.tasks, s.current, s.idle) && t < |s.tasks| && s.tasks[t].state == Sleeping
    requires w.Some? ==> w.value < |s.tasks| && s.tasks[w.value].state == Blocked
    ensures var u := Unblock(s, w).tasks[t]; u.state == Sleeping && u.sleep == s.tasks[t].sleep
  {
    if w.Some? {
      hide TableOk, Schedule;
      ReadiedTable(s.tasks, s.current, s.idle, w.value);
      ScheduleSleep(s.(tasks := s.tasks[w.value := Readied(s.tasks[w.value])]), false, t);
    }
  }

  lemma BlockSleep(s: Sys, obj: WaitObject, t: Tid)
    requires TableOk(s.tasks, s.current, s.idle) && t < |s.tasks| && s.tasks[t].state == Sleeping
    requires s.current != s.idle && s.current != t
    ensures var u := Block(s, s.current, obj).tasks[t]; u.state == Sleeping && u.sleep == s.tasks[t].sleep
  {
    var c := s.current;
    var u := s.tasks[c].(state := Blocked, waitObject := Some(obj));
    assert TaskOk(s.tasks[c]) && TaskOk(u) && s.tasks[c].state != Unused;
    hide TableOk, Schedule, TaskCount;
    OneChange(s.tasks, c, s.idle, c, u);
    ScheduleSleep(s.(tasks := s.tasks[c := u]), false, t);
  }

  /** The head of a queue is blocked, so waking it does not touch a sleeper. */
  lemma HeadBlocked(s: Sys)
    requires Inv(s)
    ensures forall i :: 0 <= i < |s.sems| && s.sems[i].waiters != [] ==>
              s.sems[i].waiters[0] < |s.tasks| && s.tasks[s.sems[i].waiters[0]].state == Blocked
    ensures forall i :: 0 <= i < |s.mutexes| && s.mutexes[i].waiters != [] ==>
              s.mutexes[i].waiters[0] < |s.tasks| && s.tasks[s.mutexes[i].waiters[0]].state == Blocked
  {
  }

  lemma MutexSleep(s: Sys, step: Step, t: Tid)
    requires Inv(s) && Enabled(s, step) && (step.LockMutex? || step.UnlockMutex?)
    requires t < |s.tasks| && s.tasks[t].state == Sleeping
    ensures var u := Next(s, step).tasks[t]; u.state == Sleeping && u.sleep == s.tasks[t].sleep
  {
    HeadBlocked(s);
    var i := step.mutex;
    var m := s.mutexes[i];
    if step.LockMutex? {
      InheritInv(s, m.owner);
      var (m', outcome) := MutexLock(m, s.current, step.try);
      hide SemsOk, MutexesOk, WaitsOk, Schedule;
      if outcome == Parked {
        BlockSleep(s.(mutexes := s.mutexes[i := m'], tasks := Inherit(s.tasks, m.owner, s.current)), MutexObj(i), t);
      }
    } else {
      ResetInv(s);
      var (m', w) := MutexUnlock(m, s.current);
      hide SemsOk, MutexesOk, WaitsOk, Schedule;
      UnblockSleep(s.(mutexes := s.mutexes[i := m'], tasks := ResetPriority(s.tasks, s.current)), w, t);
    }
  }

  lemma SemSleep(s: Sys, step: Step, t: Tid)
    requires Inv(s) && Enabled(s, step) && (step.WaitSem? || step.SignalSem?)
    requires t < |s.tasks| && s.tasks[t].state == Sleeping
    ensures var u := Next(s, step).tasks[t]; u.state == Sleeping && u.sleep == s.tasks[t].sleep
  {
    HeadBlocked(s);
    var i := step.sem;
    hide SemsOk, MutexesOk, WaitsOk, Schedule;
    if step.WaitSem? {
      var (sem, outcome) := SemWait(s.sems[i], s.current, step.try);
      if outcome == Parked {
        BlockSleep(s.(sems := s.sems[i := sem]), SemObj(i), t);
      }
    } else {
      var (sem, w) := SemSignal(s.sems[i]);
      UnblockSleep(s.(sems := s.sems[i := sem]), w, t);
    }
  }

  /** Only a timer interrupt counts a sleeper down. */
  lemma StepSleep(s: Sys, step: Step, t: Tid)
    requires Inv(s) && Enabled(s, step) && t < |s.tasks| && s.tasks[t].state == Sleeping
    ensures |Next(s, step).tasks| == |s.tasks|
    ensures var u := Next(s, step).tasks[t];
            if step != Tick then u.state == Sleeping && u.sleep == s.tasks[t].sleep
            else if s.tasks[t].sleep == 1 then Runnable(u)
            else u.state == Sleeping && u.sleep == s.tasks[t].sleep - 1
  {
    hide Schedule;
    if step.Tick? || step.Yield? {
      ScheduleSleep(s, step.Tick?, t);
      assert |Schedule(s, step.Tick?).tasks| == |s.tasks| by { StepLength(s, step); }
    } else if step.WaitSem? || step.SignalSem? {
      SemSleep(s, step, t);
      StepLength(s, step);
    } else if step.LockMutex? || step.UnlockMutex? {
      MutexSleep(s, step, t);
      StepLength(s, step);
    }
  }

  lemma StepLength(s: Sys, step: Step)
    requires Enabled(s, step)
    ensures |Next(s, step).tasks| == |s.tasks|
  {
  }

  ghost function Ticks(steps: seq<Step>): nat {
    if steps == [] then 0 else Ticks(steps[..|steps| - 1]) + if steps[|steps| - 1] == Tick then 1 else 0
  }

  /** A task that sleeps for k ticks sleeps until the k-th timer interrupt and is ready
      on exactly that one, however many yields and calls come in between. */
  lemma {:induction false} SleepExact(states: seq<Sys>, steps: seq<Step>, t: Tid)
    requires Run(states, steps) && t < |states[0].tasks| && states[0].tasks[t].state == Sleeping
    ensures |states[|steps|].tasks| == |states[0].tasks|
    ensures var k := states[0].tasks[t].sleep; var u := states[|steps|].tasks[t];
            && (Ticks(steps) < k ==> u.state == Sleeping && u.sleep == k - Ticks(steps))
            && (steps != [] && steps[|steps| - 1] == Tick && Ticks(steps) == k ==> Runnable(u))
  {
    var n := |steps|;
    if n > 0 {
      assert Run(states[..n], steps[..n - 1]) by { hide Inv, Next, Enabled; }
      SleepExact(states[..n], steps[..n - 1], t);
      RunInv(states, steps, n - 1);
      assert states[n] == Next(states[n - 1], steps[n - 1]);
      hide Inv, Next, Enabled;
      StepLength(states[n - 1], steps[n - 1]);
      if Ticks(steps[..n - 1]) < states[0].tasks[t].sleep {
        StepSleep(states[n - 1], steps[n - 1], t);
      }
    } else {
      assert TaskOk(states[0].tasks[t]);
    }
  }

  /** rtos_delay_ticks(n): the caller is runnable again on exactly the n-th timer interrupt. */
  lemma DelayExact(states: seq<Sys>, steps: seq<Step>, n: nat)
    requires Run(states, steps) && steps != [] && steps[0] == Delay(n) && n > 0
    ensures var t := states[0].current; var later := steps[1..];
      && t < |states[|steps|].tasks|
      && (Ticks(later) < n ==> states[|steps|].tasks[t].state == Sleeping)
      && (later != [] && later[|later| - 1] == Tick && Ticks(later) == n ==> Runnable(states[|steps|].tasks[t]))
  {
    var t := states[0].current;
    assert states[1] == Next(states[0], steps[0]);
    assert states[1].tasks[t].state == Sleeping && states[1].tasks[t].sleep == n;
    RunInv(states, steps, 1);
    hide Inv, Next, Enabled;
    assert Run(states[1..], steps[1..]) by {
      forall i | 0 <= i < |steps[1..]|
        ensures Enabled(states[1..][i], steps[1..][i])
        ensures states[1..][i + 1] == Next(states[1..][i], steps[1..][i])
      {
        assert Enabled(states[i + 1], steps[i + 1]) && states[i + 1 + 1] == Next(states[i + 1], steps[i + 1]);
      }
    }
    SleepExact(states[1..], steps[1..], t);
  }

  // ----- Priorities -----

  /** A decision resets the task it chooses to its base priority, raises every other runnable
      task by one up to 15, and leaves the rest. */
  lemma DecisionPriorities(s: Sys, tick: bool, t: Tid)
    requires TableOk(s.tasks, s.current, s.idle) && t < |s.tasks|
    ensures var s' := Schedule(s, tick); var r := if tick then Ticked(s.tasks[t]) else s.tasks[t];
      && t < |s'.tasks|
      && s'.tasks[t].base == s.tasks[t].base
      && s'.tasks[t].priority ==
         if t == s'.current then s.tasks[t].base
         else if Runnable(r) && s.tasks[t].priority < MAX_PRIORITY then s.tasks[t].priority + 1
         else s.tasks[t].priority
  {
    assert s.current < |s.tasks| && s.idle < |s.tasks|;
    hide TableOk, Pick, AfterPick, Dispatch, Charged, TickAll, SameBlocked;
    var t1 := Charged(if tick then TickAll(s.tasks) else s.tasks, s.current);
    ChargedTable(s.tasks, s.current, s.idle, tick);
    ChargedTask(s.tasks, s.current, tick, t);
    DecidedPriorities(t1, s.current, s.idle, s.last, t);
    DecidedLength(t1, s.current, s.idle, s.last);
  }

  lemma DecidedLength(tasks: seq<Task>, current: Tid, idle: Tid, last: nat)
    requires current < |tasks| && idle < |tasks|
    ensures |Decided(tasks, current, idle, last).0| == |tasks|
  {
    hide Pick;
  }

  lemma ChargedTask(tasks: seq<Task>, current: Tid, tick: bool, t: Tid)
    requires t < |tasks| && current < |tasks|
    ensures var r := if tick then Ticked(tasks[t]) else tasks[t];
            var u := Charged(if tick then TickAll(tasks) else tasks, current)[t];
      u.priority == tasks[t].priority && u.base == tasks[t].base && u.state == r.state
  {
  }

  lemma DecidedPriorities(tasks: seq<Task>, current: Tid, idle: Tid, last: nat, t: Tid)
    requires TableOk(tasks, current, idle) && t < |tasks|
    ensures var (r, next, _) := Decided(tasks, current, idle, last);
      && t < |r| && r[t].base == tasks[t].base
      && r[t].priority ==
         if t == next then tasks[t].base
         else if Runnable(tasks[t]) && tasks[t].priority < MAX_PRIORITY then tasks[t].priority + 1
         else tasks[t].priority
  {
    PickWins(tasks, last);
    var c := Pick(tasks, last);
    assert Runnable(tasks[idle]);
    assert c.Some? && c.value < |tasks|;
    hide Pick, TableOk;
    DispatchPriority(AfterPick(tasks, c), current, c.value, t);
    hide Dispatch;
  }

  lemma DispatchPriority(tasks: seq<Task>, prev: Tid, next: Tid, t: Tid)
    requires prev < |tasks| && next < |tasks| && t < |tasks|
    ensures var r := Dispatch(tasks, prev, next)[t]; r.priority == tasks[t].priority && r.base == tasks[t].base
  {
  }

  /** Priority inheritance: when a task parks on a mutex, the owner is chosen at once or has at
      least the priority of that task. */
  lemma OwnerRaised(s: Sys, i: nat, o: Tid)
    requires Inv(s) && Enabled(s, LockMutex(i, false)) && s.mutexes[i].locked && s.mutexes[i].owner == Some(o)
    requires o != s.current
    ensures var s' := Next(s, LockMutex(i, false));
      && o < |s'.tasks|
      && (s'.current == o || s'.tasks[o].priority >= s.tasks[s.current].priority)
  {
    var c := s.current;
    var (m, outcome) := MutexLock(s.mutexes[i], c, false);
    InheritInv(s, Some(o));
    var tasks := Inherit(s.tasks, Some(o), c);
    var blocked := tasks[c := tasks[c].(state := Blocked, waitObject := Some(MutexObj(i)))];
    var s1 := s.(mutexes := s.mutexes[i := m], tasks := blocked);
    assert Next(s, LockMutex(i, false)) == Schedule(s1, false);
    assert TaskOk(tasks[c]);
    OneChange(tasks, c, s.idle, c, blocked[c]);
    DecisionPriorities(s1, false, o);
  }

  // ----- Wait queues -----

  ghost function QueueOf(s: Sys, obj: WaitObject): seq<Tid> {
    match obj
    case SemObj(i) => if i < |s.sems| then s.sems[i].waiters else []
    case MutexObj(i) => if i < |s.mutexes| then s.mutexes[i].waiters else []
    case EventObj(_) => []
  }

  /** A step that hands the object on: a signal, or the owner's last unlock. */
  ghost predicate HandsOn(s: Sys, step: Step, obj: WaitObject) {
    match obj
    case SemObj(i) => step == SignalSem(i)
    case MutexObj(i) =>
      && step == UnlockMutex(i) && i < |s.mutexes|
      && s.mutexes[i].owner == Some(s.current) && s.mutexes[i].recursion <= 1
    case EventObj(_) => false
  }

  /** Scheduling does not touch the objects. */
  lemma StepObjects(s: Sys, step: Step)
    requires Enabled(s, step)
    ensures Next(s, step).sems == match step
              case WaitSem(i, try) => s.sems[i := SemWait(s.sems[i], s.current, try).0]
              case SignalSem(i) => s.sems[i := SemSignal(s.sems[i]).0]
              case _ => s.sems
    ensures Next(s, step).mutexes == match step
              case LockMutex(i, try) => s.mutexes[i := MutexLock(s.mutexes[i], s.current, try).0]
              case UnlockMutex(i) => s.mutexes[i := MutexUnlock(s.mutexes[i], s.current).0]
              case _ => s.mutexes
  {
    hide Pick, AfterPick, Dispatch, Charged, SemWait, SemSignal, MutexLock, MutexUnlock, TickAll, Inherit,
         ResetPriority;
  }

  /** Newcomers go to the back, and handing on serves the front. */
  lemma StepQueue(s: Sys, step: Step, obj: WaitObject)
    requires Inv(s) && Enabled(s, step)
    ensures var q, q' := QueueOf(s, obj), QueueOf(Next(s, step), obj);
            if HandsOn(s, step, obj) && q != [] then q' == q[1..] else q <= q'
  {
    hide Next, Inv, Enabled, SemWait, SemSignal, MutexLock, MutexUnlock, MutexOk;
    StepObjects(s, step);
    StepIndex(s, step);
    match obj
    case SemObj(i) =>
      if i < |s.sems| { SemQueueStep(s.sems[i], s.current); }
    case MutexObj(i) =>
      if i < |s.mutexes| {
        LockedOk(s, i);
        MutexQueueStep(s.mutexes[i], s.current);
      }
    case EventObj(_) =>
  }

  lemma StepIndex(s: Sys, step: Step)
    requires Enabled(s, step)
    ensures match step
            case WaitSem(i, _) => i < |s.sems|
            case SignalSem(i) => i < |s.sems|
            case LockMutex(i, _) => i < |s.mutexes|
            case UnlockMutex(i) => i < |s.mutexes|
            case _ => true
  {
  }

  lemma LockedOk(s: Sys, i: nat)
    requires Inv(s) && i < |s.mutexes|
    ensures MutexOk(s.mutexes[i])
  {
  }

  lemma SemQueueStep(sem: Sem, t: Tid)
    ensures forall try :: sem.waiters <= SemWait(sem, t, try).0.waiters
    ensures SemSignal(sem).0.waiters == if sem.waiters == [] then [] else sem.waiters[1..]
  {
  }

  lemma MutexQueueStep(m: Mutex, t: Tid)
    requires MutexOk(m)
    ensures forall try :: m.waiters <= MutexLock(m, t, try).0.waiters
    ensures MutexUnlock(m, t).0.waiters ==
            if m.owner == Some(t) && m.recursion <= 1 && m.waiters != [] then m.waiters[1..] else m.waiters
  {
  }

  /** How often the first i steps hand the object on. */
  ghost function HandOns(states: seq<Sys>, steps: seq<Step>, obj: WaitObject, i: nat): nat
    requires i <= |steps| < |states|
  {
    if i == 0 then 0
    else HandOns(states, steps, obj, i - 1) + if HandsOn(states[i - 1], steps[i - 1], obj) then 1 else 0
  }

  /** FIFO: the task at position p is still queued, m places further, after m <= p hand-ons. */
  lemma {:induction false} ServedInOrder(states: seq<Sys>, steps: seq<Step>, obj: WaitObject, p: nat, i: nat)
    requires Run(states, steps) && p < |QueueOf(states[0], obj)| && i <= |steps|
    ensures var m := HandOns(states, steps, obj, i);
            m <= p ==> p - m < |QueueOf(states[i], obj)|
                       && QueueOf(states[i], obj)[p - m] == QueueOf(states[0], obj)[p]
  {
    hide Inv, Next, Enabled, QueueOf, HandsOn;
    if i > 0 {
      ServedInOrder(states, steps, obj, p, i - 1);
      RunInv(states, steps, i - 1);
      assert states[i] == Next(states[i - 1], steps[i - 1]);
      StepQueue(states[i - 1], steps[i - 1], obj);
      QueueMoves(QueueOf(states[0], obj)[p], QueueOf(states[i - 1], obj), QueueOf(states[i], obj), p,
                 HandOns(states, steps, obj, i - 1), HandsOn(states[i - 1], steps[i - 1], obj));
    }
  }

  lemma QueueMoves(x: Tid, q: seq<Tid>, q': seq<Tid>, p: nat, m: nat, pop: bool)
    requires m <= p ==> p - m < |q| && q[p - m] == x
    requires if pop && q != [] then q' == q[1..] else q <= q'
    ensures var k := m + if pop then 1 else 0; k <= p ==> p - k < |q'| && q'[p - k] == x
  {
  }

  /** Handing on gives the object to the head of the queue, which becomes runnable. */
  lemma HeadIsServed(s: Sys, step: Step, obj: WaitObject)
    requires Inv(s) && Enabled(s, step) && HandsOn(s, step, obj) && QueueOf(s, obj) != []
    ensures var w := QueueOf(s, obj)[0]; var s' := Next(s, step);
            && w < |s'.tasks|
            && Runnable(s'.tasks[w])
            && (obj.MutexObj? ==> s'.mutexes[obj.mutex].owner == Some(w) && s'.mutexes[obj.mutex].recursion == 1)
            && (obj.SemObj? ==> s'.sems[obj.sem].count == 0)
  {
    hide Inv, MutexUnlockCall, SemSignalCall;
    if obj.SemObj? {
      SemServed(s, obj.sem);
    } else {
      MutexServed(s, obj.mutex);
    }
  }

  lemma SemServed(s: Sys, i: nat)
    requires Inv(s) && i < |s.sems| && s.sems[i].waiters != []
    ensures var w := s.sems[i].waiters[0]; var s' := SemSignalCall(s, i);
      w < |s'.tasks| && Runnable(s'.tasks[w]) && i < |s'.sems| && s'.sems[i].count == 0
  {
    HeadBlocked(s);
    assert SemOk(s.sems[i]);
    hide SemsOk, MutexesOk, WaitsOk, TableOk, Unblock;
    UnblockServes(s.(sems := s.sems[i := SemSignal(s.sems[i]).0]), s.sems[i].waiters[0]);
  }

  lemma MutexServed(s: Sys, i: nat)
    requires Inv(s) && i < |s.mutexes| && s.mutexes[i].waiters != []
    requires s.mutexes[i].owner == Some(s.current) && s.mutexes[i].recursion <= 1
    ensures var w := s.mutexes[i].waiters[0]; var s' := MutexUnlockCall(s, i);
      && w < |s'.tasks| && Runnable(s'.tasks[w])
      && i < |s'.mutexes| && s'.mutexes[i].owner == Some(w) && s'.mutexes[i].recursion == 1
  {
    HeadBlocked(s);
    LockedOk(s, i);
    ResetInv(s);
    hide SemsOk, MutexesOk, WaitsOk, TableOk, Unblock;
    HeadBlocked(s.(tasks := ResetPriority(s.tasks, s.current)));
    UnblockServes(s.(mutexes := s.mutexes[i := MutexUnlock(s.mutexes[i], s.current).0],
                     tasks := ResetPriority(s.tasks, s.current)), s.mutexes[i].waiters[0]);
  }

  /** The woken task is runnable whether or not a decision follows. */
  lemma UnblockServes(s: Sys, w: Tid)
    requires TableOk(s.tasks, s.current, s.idle) && w < |s.tasks| && s.tasks[w].state == Blocked
    ensures var r := Unblock(s, Some(w));
      |r.tasks| == |s.tasks| && Runnable(r.tasks[w]) && r.sems == s.sems && r.mutexes == s.mutexes
  {
    hide TableOk, Pick, AfterPick, Dispatch, SameBlocked, Charged;
    ReadiedTable(s.tasks, s.current, s.idle, w);
    var tasks := s.tasks[w := Readied(s.tasks[w])];
    ChargedTable(tasks, s.current, s.idle, false);
    ChargedRunnable(tasks, s.current, w);
    DecidedRunnable(Charged(tasks, s.current), s.current, s.idle, s.last, w);
  }

  lemma ChargedRunnable(tasks: seq<Task>, current: Tid, w: Tid)
    requires w < |tasks| && current < |tasks| && Runnable(tasks[w])
    ensures |Charged(tasks, current)| == |tasks| && Runnable(Charged(tasks, current)[w])
  {
  }
}
