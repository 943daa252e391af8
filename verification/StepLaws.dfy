/**
  What each kernel call changes, field by field, and what it leaves: in numbers and states of tasks
  and objects, without the functions that the transition system is built from.
 */
module StepLaws {
  import opened Prelude
  import opened SyncObjects
  import opened Scheduler
  import opened Fairness

  /** Nothing but the tasks differs. */
  ghost predicate OnlyTasks(s: Sys, s': Sys) {
    && |s'.tasks| == |s.tasks| && s'.current == s.current && s'.idle == s.idle && s'.last == s.last
    && s'.decisions == s.decisions && s'.sems == s.sems && s'.mutexes == s.mutexes && s'.events == s.events
  }

  ghost predicate OthersSame(t: seq<Task>, u: seq<Task>, x: Tid) {
    |u| == |t| && forall i :: 0 <= i < |t| && i != x ==> u[i] == t[i]
  }

  // ----- Which calls there are -----

  /** Interrupts and yields are always possible. A current task that can run may signal, unlock, set,
      clear and create, and if it is not the idle task also wait, lock, sleep and end, on every object
      there is and again and again; no call is possible otherwise. */
  lemma CallsPossible(s: Sys, i: nat, m: bv32, flag: bool, n: nat)
    requires Inv(s)
    ensures var ready := Runnable(s.tasks[s.current]); var task := ready && s.current != s.idle;
      && Enabled(s, Tick) && Enabled(s, Yield)
      && (Enabled(s, WaitSem(i, flag)) <==> task && i < |s.sems|)
      && (Enabled(s, SignalSem(i)) <==> ready && i < |s.sems|)
      && (Enabled(s, LockMutex(i, flag)) <==> task && i < |s.mutexes|)
      && (Enabled(s, UnlockMutex(i)) <==> ready && i < |s.mutexes|)
      && (Enabled(s, WaitEvent(i, m, flag)) <==> task && i < |s.events|)
      && (Enabled(s, SetEvent(i, m)) <==> ready && i < |s.events|)
      && (Enabled(s, ClearEvent(i, m)) <==> ready && i < |s.events|)
      && (Enabled(s, Delay(n)) <==> task) && (Enabled(s, Exit) <==> task) && (Enabled(s, Create(n)) <==> ready)
  {
    hide SemsOk, MutexesOk, WaitsOk, Prefix;
  }

  // ----- Tasks -----

  ghost predicate IsFree(t: Task) { t.state == Unused || t.state == Terminated }

  /** A new task of a priority, which is cut to fifteen. */
  ghost predicate IsNew(t: Task, p: nat) {
    && t.state == Ready && t.priority == t.base == (if p > 15 then 15 else p)
    && t.sleep == 0 && t.runtime == 0 && t.waitObject == None
  }

  /** Creating fills the first free slot and touches nothing else; without one nothing changes. */
  lemma CreateLaw(s: Sys, p: nat)
    requires Enabled(s, Create(p))
    ensures var s' := Next(s, Create(p));
      if forall i :: 0 <= i < |s.tasks| ==> !IsFree(s.tasks[i]) then s' == s
      else exists x :: 0 <= x < |s.tasks| && IsFree(s.tasks[x]) && (forall i :: 0 <= i < x ==> !IsFree(s.tasks[i]))
             && OnlyTasks(s, s') && OthersSame(s.tasks, s'.tasks, x) && IsNew(s'.tasks[x], p)
  {
    hide IsNew;
    var x := FreeSlot(s.tasks, 0);
    if x.Some? {
      NewLaw(p);
      var s' := Next(s, Create(p));
      hide FreeSlot, NewTask;
      assert OnlyTasks(s, s') && OthersSame(s.tasks, s'.tasks, x.value);
      assert IsFree(s.tasks[x.value]);
    }
  }

  lemma NewLaw(p: nat)
    ensures IsNew(NewTask(p), p)
  {
  }

  lemma ExitLaw(s: Sys)
    requires Enabled(s, Exit)
    ensures var s', c := Next(s, Exit), s.current;
      OnlyTasks(s, s') && OthersSame(s.tasks, s'.tasks, c) && s'.tasks[c].state == Terminated
  {
  }

  lemma DelayLaw(s: Sys, n: nat)
    requires Enabled(s, Delay(n))
    ensures var s', c := Next(s, Delay(n)), s.current;
      if n == 0 then s' == s
      else
        && OnlyTasks(s, s') && OthersSame(s.tasks, s'.tasks, c)
        && s'.tasks[c].state == Sleeping && s'.tasks[c].sleep == n && s'.tasks[c].priority == s.tasks[c].priority
  {
  }

  // ----- Events -----

  function Both(a: bv32, b: bv32): bv32 { a & b }

  /** Some bit is in both. */
  predicate Meets(a: bv32, b: bv32) { Both(a, b) != 0 }

  lemma MeetsRaised(flags: bv32, m: bv32, x: bv32)
    ensures Meets(Raised(flags, m), x) <==> Meets(flags, x) || Meets(m, x)
  {
    hide Both, Raised;
    Distribute(flags, m, x);
    NoBits(Both(flags, x), Both(m, x));
  }

  lemma Distribute(a: bv32, b: bv32, x: bv32)
    ensures Both(Raised(a, b), x) == Raised(Both(a, x), Both(b, x))
  {
  }

  lemma NoBits(a: bv32, b: bv32)
    ensures Raised(a, b) == 0 <==> a == 0 && b == 0
  {
  }

  /** Setting m makes exactly the bits of m and those that were set visible, and readies every task
      that is blocked on the event; nothing else changes. */
  lemma SetLaw(s: Sys, e: nat, m: bv32)
    requires Enabled(s, SetEvent(e, m))
    ensures var s' := Next(s, SetEvent(e, m));
      && |s'.events| == |s.events| && |s'.tasks| == |s.tasks|
      && (forall x :: Meets(s'.events[e], x) <==> Meets(s.events[e], x) || Meets(m, x))
      && (forall d :: 0 <= d < |s.events| && d != e ==> s'.events[d] == s.events[d])
      && (forall t :: 0 <= t < |s.tasks| ==>
            if BlockedOn(s.tasks[t], EventObj(e))
            then s'.tasks[t].state == Ready && s'.tasks[t].waitObject == None && s'.tasks[t].mask == s.tasks[t].mask
                 && s'.tasks[t].priority == s.tasks[t].priority
            else s'.tasks[t] == s.tasks[t])
      && s'.sems == s.sems && s'.mutexes == s.mutexes && s'.current == s.current
  {
    hide Raised, Meets;
    forall x ensures Meets(Raised(s.events[e], m), x) <==> Meets(s.events[e], x) || Meets(m, x) {
      MeetsRaised(s.events[e], m, x);
    }
  }

  /** One round of waiting: with a wanted bit set the caller goes on, and its bits are cleared if it
      asked for that; otherwise it is blocked for them. */
  lemma WaitLaw(s: Sys, e: nat, m: bv32, clear: bool)
    requires Enabled(s, WaitEvent(e, m, clear))
    ensures var s', c := Next(s, WaitEvent(e, m, clear)), s.current;
      if Meets(s.events[e], m) then
        && s'.tasks == s.tasks && |s'.events| == |s.events|
        && (if clear then !Meets(s'.events[e], m) else s' == s)
        && (forall x :: !Meets(x, m) ==> (Meets(s'.events[e], x) <==> Meets(s.events[e], x)))
        && (forall d :: 0 <= d < |s.events| && d != e ==> s'.events[d] == s.events[d])
      else
        && OnlyTasks(s, s') && OthersSame(s.tasks, s'.tasks, c)
        && BlockedOn(s'.tasks[c], EventObj(e)) && s'.tasks[c].mask == m
  {
    MeetsNone(s.events[e], m);
    ClearedBits(s.events[e], m);
    hide Meets, Cleared, NoneSet;
  }

  lemma MeetsNone(flags: bv32, m: bv32)
    ensures NoneSet(flags, m) <==> !Meets(flags, m)
  {
  }

  lemma ClearedBits(flags: bv32, m: bv32)
    ensures !Meets(Cleared(flags, m), m)
    ensures forall x :: !Meets(x, m) ==> (Meets(Cleared(flags, m), x) <==> Meets(flags, x))
  {
    forall x | !Meets(x, m) ensures Meets(Cleared(flags, m), x) <==> Meets(flags, x) {
      ClearedBit(flags, m, x);
    }
  }

  lemma ClearedBit(flags: bv32, m: bv32, x: bv32)
    requires !Meets(x, m)
    ensures Meets(Cleared(flags, m), x) <==> Meets(flags, x)
  {
    assert flags & !m & x == flags & x;
  }

  /** Clearing m clears exactly the bits of m. */
  lemma ClearLaw(s: Sys, e: nat, m: bv32)
    requires Enabled(s, ClearEvent(e, m))
    ensures var s' := Next(s, ClearEvent(e, m));
      && |s'.events| == |s.events| && s' == s.(events := s'.events) && !Meets(s'.events[e], m)
      && (forall x :: !Meets(x, m) ==> (Meets(s'.events[e], x) <==> Meets(s.events[e], x)))
      && (forall d :: 0 <= d < |s.events| && d != e ==> s'.events[d] == s.events[d])
  {
    ClearedBits(s.events[e], m);
    hide Meets, Cleared;
  }

  /** A set event is delivered: a task that waited for one of its bits can run, and when it looks
      again with the bits still set it goes on. */
  lemma SetDelivers(s: Sys, e: nat, m: bv32, t: Tid, later: Sys, clear: bool)
    requires Enabled(s, SetEvent(e, m)) && t < |s.tasks| && BlockedOn(s.tasks[t], EventObj(e))
    requires Meets(s.tasks[t].mask, m)
    requires Enabled(later, WaitEvent(e, s.tasks[t].mask, clear)) && later.current == t
    requires e < |later.events| && later.events[e] == Next(s, SetEvent(e, m)).events[e]
    ensures t < |Next(s, SetEvent(e, m)).tasks| && Runnable(Next(s, SetEvent(e, m)).tasks[t])
    ensures Meets(later.events[e], s.tasks[t].mask)
    ensures Next(later, WaitEvent(e, s.tasks[t].mask, clear)).tasks == later.tasks
  {
    MeetsBoth(m, s.tasks[t].mask);
    hide Meets, Next;
    SetLaw(s, e, m);
    WaitLaw(later, e, s.tasks[t].mask, clear);
  }

  lemma MeetsBoth(a: bv32, b: bv32)
    ensures Meets(a, b) <==> Meets(b, a)
  {
  }

  // ----- Semaphores -----

  /** A wait takes a token if there is one; without one a caller that only tries gets nothing, and
      any other is the last in the queue and cannot run. */
  lemma SemWaitLaw(s: Sys, i: nat, try: bool)
    requires Inv(s) && Enabled(s, WaitSem(i, try))
    ensures var s', c := Next(s, WaitSem(i, try)), s.current;
      && |s'.sems| == |s.sems| && (forall j :: 0 <= j < |s.sems| && j != i ==> s'.sems[j] == s.sems[j])
      && s'.mutexes == s.mutexes && s'.events == s.events
      && (if s.sems[i].count > 0
          then s'.tasks == s.tasks && s'.sems[i] == Sem(s.sems[i].count - 1, s.sems[i].max, s.sems[i].waiters)
          else if try then s' == s
          else
            && s'.sems[i] == Sem(s.sems[i].count, s.sems[i].max, s.sems[i].waiters + [c])
            && c < |s'.tasks| && BlockedOn(s'.tasks[c], SemObj(i)))
  {
    StepInv(s, WaitSem(i, try));
    hide Inv, Block;
    var s' := Next(s, WaitSem(i, try));
    if s.sems[i].count <= 0 && !try {
      BlockObjects(s.(sems := s.sems[i := s.sems[i].(waiters := s.sems[i].waiters + [s.current])]), SemObj(i));
      assert s'.sems[i].waiters[|s.sems[i].waiters|] == s.current;
      SemQueued(s', i, |s.sems[i].waiters|);
    } else {
      assert s.sems[i := s.sems[i]] == s.sems;
    }
  }

  lemma BlockObjects(s: Sys, obj: WaitObject)
    requires s.current < |s.tasks| && s.idle < |s.tasks|
    ensures var s' := Block(s, s.current, obj); s'.sems == s.sems && s'.mutexes == s.mutexes && s'.events == s.events
  {
    hide Pick, AfterPick, Dispatch, Charged;
  }

  lemma SemQueued(s: Sys, i: nat, k: nat)
    requires Inv(s) && i < |s.sems| && k < |s.sems[i].waiters|
    ensures var t := s.sems[i].waiters[k]; t < |s.tasks| && BlockedOn(s.tasks[t], SemObj(i))
  {
    hide TableOk, MutexesOk, WaitsOk;
  }

  /** A signal with nobody waiting adds a token up to the maximum; with a queue the count stays, the
      head leaves it and can run. */
  lemma SemSignalLaw(s: Sys, i: nat)
    requires Inv(s) && Enabled(s, SignalSem(i))
    ensures var s', sem := Next(s, SignalSem(i)), s.sems[i];
      && |s'.sems| == |s.sems| && (forall j :: 0 <= j < |s.sems| && j != i ==> s'.sems[j] == s.sems[j])
      && s'.mutexes == s.mutexes && s'.events == s.events
      && (if sem.waiters == []
          then s'.tasks == s.tasks
            && s'.sems[i] == Sem(if sem.count < sem.max then sem.count + 1 else sem.count, sem.max, [])
          else
            && s'.sems[i] == Sem(sem.count, sem.max, sem.waiters[1..])
            && sem.waiters[0] < |s'.tasks| && Runnable(s'.tasks[sem.waiters[0]]))
  {
    if s.sems[i].waiters != [] { HeadIsServed(s, SignalSem(i), SemObj(i)); }
    hide Inv, Unblock;
    UnblockObjects(s.(sems := s.sems[i := SemSignal(s.sems[i]).0]), SemSignal(s.sems[i]).1);
    if s.sems[i].waiters == [] { UnblockNone(s.(sems := s.sems[i := SemSignal(s.sems[i]).0])); }
  }

  lemma UnblockObjects(s: Sys, w: Option<Tid>)
    requires s.current < |s.tasks| && s.idle < |s.tasks|
    ensures var s' := Unblock(s, w); s'.sems == s.sems && s'.mutexes == s.mutexes && s'.events == s.events
  {
    hide Pick, AfterPick, Dispatch, Charged;
  }

  lemma UnblockNone(s: Sys)
    requires s.current < |s.tasks| && s.idle < |s.tasks|
    ensures Unblock(s, None) == s
  {
  }

  // ----- Unlocking -----

  /** A caller that does not own the mutex changes nothing; the last unlock resets the caller to its
      base priority, and frees the mutex if nobody waits. */
  lemma UnlockLaw(s: Sys, m: nat)
    requires Inv(s) && Enabled(s, UnlockMutex(m))
    ensures var s', c, x := Next(s, UnlockMutex(m)), s.current, s.mutexes[m];
      && (x.owner != Some(c) ==> s' == s)
      && (x.owner == Some(c) && x.recursion == 1 && x.waiters == [] ==>
            && |s'.mutexes| == |s.mutexes| && s'.mutexes[m].owner == None && !s'.mutexes[m].locked
            && OthersSame(s.tasks, s'.tasks, c) && s'.tasks[c].priority == s.tasks[c].base
            && s'.tasks[c] == s.tasks[c].(priority := s.tasks[c].base))
      && (x.owner == Some(c) && x.recursion > 1 ==> s'.tasks == s.tasks)
  {
    LockedOk(s, m);
    hide Inv, Unblock;
    UnblockNone(s.(mutexes := s.mutexes[m := Mutex(false, 0, None, [])], tasks := ResetPriority(s.tasks, s.current)));
    assert s.mutexes[m := s.mutexes[m]] == s.mutexes;
  }

  // ----- Decisions -----

  /** A decision charges the current task one tick of run time and nobody else, makes the task it
      chooses the current one, running, and turns a running one that it replaces to ready. */
  lemma DecisionLaw(s: Sys, tick: bool)
    requires Inv(s)
    ensures var s' := Schedule(s, tick);
      && |s'.tasks| == |s.tasks| && s'.current < |s.tasks| && s'.decisions == s.decisions + 1 && s'.idle == s.idle
      && s'.sems == s.sems && s'.mutexes == s.mutexes && s'.events == s.events
      && (forall t :: 0 <= t < |s.tasks| ==>
            s'.tasks[t].runtime == s.tasks[t].runtime + if t == s.current then 1 else 0)
      && (s'.current != s.current ==> s'.tasks[s'.current].state == Running)
      && (s'.current != s.current && s.tasks[s.current].state == Running ==> s'.tasks[s.current].state == Ready)
      && (forall t :: 0 <= t < |s.tasks| && s.tasks[t].state in {Blocked, Terminated, Unused} && t != s'.current ==>
            s'.tasks[t].state == s.tasks[t].state)
      && (forall t :: 0 <= t < |s.tasks| ==> s'.tasks[t].base == s.tasks[t].base)
  {
    hide Inv, Pick, AfterPick, Charged, TickAll, Dispatch;
    InvTable(s);
    var t0 := if tick then TickAll(s.tasks) else s.tasks;
    var t1 := Charged(t0, s.current);
    var c := Pick(t1, s.last);
    ScheduleIs(s, tick);
    forall t | 0 <= t < |s.tasks|
      ensures
        && t1[t].runtime == s.tasks[t].runtime + (if t == s.current then 1 else 0) && t1[t].base == s.tasks[t].base
        && (s.tasks[t].state != Sleeping ==> t1[t].state == s.tasks[t].state)
    {
      ChargedTask(s, tick, t);
    }
    var m := AfterPick(t1, c);
    forall t | 0 <= t < |s.tasks|
      ensures m[t].runtime == t1[t].runtime && m[t].base == t1[t].base && m[t].state == t1[t].state
    {
      PickedTask(t1, c, t);
    }
    DispatchLaw(m, s.current, Schedule(s, tick).current);
  }

  lemma InvTable(s: Sys)
    requires Inv(s)
    ensures s.current < |s.tasks| && s.idle < |s.tasks|
  {
    hide SemsOk, MutexesOk, WaitsOk, Prefix;
  }

  lemma ScheduleIs(s: Sys, tick: bool)
    requires s.current < |s.tasks| && s.idle < |s.tasks|
    ensures var t1 := Charged(if tick then TickAll(s.tasks) else s.tasks, s.current);
      var s' := Schedule(s, tick); var m := AfterPick(t1, Pick(t1, s.last));
      && |t1| == |m| == |s.tasks| && s'.current < |s.tasks| && s'.tasks == Dispatch(m, s.current, s'.current)
      && s'.decisions == s.decisions + 1 && s'.idle == s.idle
      && s'.sems == s.sems && s'.mutexes == s.mutexes && s'.events == s.events
  {
    hide Pick;
  }

  lemma ChargedTask(s: Sys, tick: bool, t: Tid)
    requires s.current < |s.tasks| && t < |s.tasks|
    ensures var u := Charged(if tick then TickAll(s.tasks) else s.tasks, s.current)[t];
      && u.runtime == s.tasks[t].runtime + (if t == s.current then 1 else 0) && u.base == s.tasks[t].base
      && (s.tasks[t].state != Sleeping ==> u.state == s.tasks[t].state)
  {
  }

  lemma PickedTask(tasks: seq<Task>, c: Option<Tid>, t: Tid)
    requires t < |tasks|
    ensures var u := AfterPick(tasks, c)[t];
      u.runtime == tasks[t].runtime && u.base == tasks[t].base && u.state == tasks[t].state
  {
  }

  lemma DispatchLaw(tasks: seq<Task>, prev: Tid, next: Tid)
    requires prev < |tasks| && next < |tasks|
    ensures var r := Dispatch(tasks, prev, next);
      && |r| == |tasks|
      && (forall t :: 0 <= t < |tasks| ==> r[t].runtime == tasks[t].runtime && r[t].base == tasks[t].base)
      && (forall t :: 0 <= t < |tasks| && t != prev && t != next ==> r[t].state == tasks[t].state)
      && (prev != next ==> r[next].state == Running)
      && (prev != next ==> r[prev].state == if tasks[prev].state == Running then Ready else tasks[prev].state)
      && (prev == next ==> r == tasks)
  {
  }

  /** Waking a task decides anew exactly if its priority is higher than that of the current one. */
  lemma WakeLaw(s: Sys, w: Tid)
    requires s.current < |s.tasks| && s.idle < |s.tasks| && w < |s.tasks| && w != s.current
    ensures Unblock(s, Some(w)).decisions
         == s.decisions + if s.tasks[w].priority > s.tasks[s.current].priority then 1 else 0
    ensures s.tasks[w].priority <= s.tasks[s.current].priority ==>
      var s' := Unblock(s, Some(w));
      && OnlyTasks(s, s') && OthersSame(s.tasks, s'.tasks, w)
      && s'.tasks[w].state == Ready && s'.tasks[w].waitObject == None && s'.tasks[w].priority == s.tasks[w].priority
  {
    hide Pick, AfterPick, Dispatch, Charged;
  }
}
