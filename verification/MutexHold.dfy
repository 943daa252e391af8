/**
  How long a mutex is held, counted in the steps of a run: a task that has become the owner keeps
  the mutex until it has unlocked it once more often than it has locked it again.
 */
module MutexHold {
  import opened Prelude
  import opened SyncObjects
  import opened Scheduler
  import opened Fairness

  ghost predicate Owns(s: Sys, m: nat, t: Tid) { m < |s.mutexes| && s.mutexes[m].owner == Some(t) }

  /** The current task t calls rtos_mutex_lock, or rtos_mutex_unlock, on mutex m. */
  predicate LocksIn(s: Sys, step: Step, m: nat, t: Tid) { s.current == t && step.LockMutex? && step.mutex == m }

  predicate UnlocksIn(s: Sys, step: Step, m: nat, t: Tid) { s.current == t && step == UnlockMutex(m) }

  /** How often t calls them in the steps [a, b). */
  ghost function Locks(states: seq<Sys>, steps: seq<Step>, m: nat, t: Tid, a: nat, b: nat): nat
    requires a <= b <= |steps| < |states|
  {
    if b == a then 0
    else Locks(states, steps, m, t, a, b - 1) + if LocksIn(states[b - 1], steps[b - 1], m, t) then 1 else 0
  }

  ghost function Unlocks(states: seq<Sys>, steps: seq<Step>, m: nat, t: Tid, a: nat, b: nat): nat
    requires a <= b <= |steps| < |states|
  {
    if b == a then 0
    else Unlocks(states, steps, m, t, a, b - 1) + if UnlocksIn(states[b - 1], steps[b - 1], m, t) then 1 else 0
  }

  // ----- One step -----

  /** What a step does to a mutex that t owns. */
  lemma OwnedStep(s: Sys, step: Step, m: nat, t: Tid)
    requires Inv(s) && Enabled(s, step) && Owns(s, m, t)
    ensures var r, s' := s.mutexes[m].recursion, Next(s, step);
      && m < |s'.mutexes|
      && (if LocksIn(s, step, m, t) then Owns(s', m, t) && s'.mutexes[m].recursion == r + 1
          else if UnlocksIn(s, step, m, t) && r == 1 then !Owns(s', m, t)
          else if UnlocksIn(s, step, m, t) then Owns(s', m, t) && s'.mutexes[m].recursion == r - 1
          else Owns(s', m, t) && s'.mutexes[m].recursion == r)
  {
    LockedOk(s, m);
    hide Inv, Next;
    StepObjects(s, step);
    StepIndex(s, step);
    if step.UnlockMutex? && step.mutex == m && s.mutexes[m].waiters != [] {
      assert s.mutexes[m].waiters[0] in s.mutexes[m].waiters;
    }
  }

  /** Whoever becomes the owner, by a call or by being handed the mutex, holds it once. */
  lemma BecomesOnce(s: Sys, step: Step, m: nat, t: Tid)
    requires Inv(s) && Enabled(s, step) && !Owns(s, m, t) && Owns(Next(s, step), m, t)
    ensures Next(s, step).mutexes[m].recursion == 1
  {
    hide Inv, Next;
    StepObjects(s, step);
    StepIndex(s, step);
  }

  // ----- Every run -----

  /** Task t has become the owner with step a - 1. */
  ghost predicate Became(states: seq<Sys>, m: nat, t: Tid, a: nat) {
    0 < a < |states| && !Owns(states[a - 1], m, t) && Owns(states[a], m, t)
  }

  /** Up to b it has not unlocked more often than locked again. */
  ghost predicate NotBalanced(states: seq<Sys>, steps: seq<Step>, m: nat, t: Tid, a: nat, b: nat)
    requires a <= b <= |steps| < |states|
  {
    forall c :: a <= c <= b ==> Unlocks(states, steps, m, t, a, c) <= Locks(states, steps, m, t, a, c)
  }

  lemma {:induction false} HeldDepth(states: seq<Sys>, steps: seq<Step>, m: nat, t: Tid, a: nat, b: nat)
    requires Run(states, steps) && a <= b <= |steps| && Became(states, m, t, a)
    requires NotBalanced(states, steps, m, t, a, b)
    ensures Owns(states[b], m, t)
    ensures states[b].mutexes[m].recursion
         == 1 + Locks(states, steps, m, t, a, b) - Unlocks(states, steps, m, t, a, b)
  {
    hide Inv, Next, Enabled;
    if a == b {
      RunInv(states, steps, a - 1);
      assert states[a] == Next(states[a - 1], steps[a - 1]);
      BecomesOnce(states[a - 1], steps[a - 1], m, t);
    } else {
      assert NotBalanced(states, steps, m, t, a, b - 1);
      HeldDepth(states, steps, m, t, a, b - 1);
      RunInv(states, steps, b - 1);
      assert states[b] == Next(states[b - 1], steps[b - 1]);
      OwnedStep(states[b - 1], steps[b - 1], m, t);
      assert Unlocks(states, steps, m, t, a, b) <= Locks(states, steps, m, t, a, b);
    }
  }

  /** With the unlock that balances the count the mutex is free or belongs to another task. */
  lemma ReleasedWhenBalanced(states: seq<Sys>, steps: seq<Step>, m: nat, t: Tid, a: nat, b: nat)
    requires Run(states, steps) && a < b <= |steps| && Became(states, m, t, a)
    requires NotBalanced(states, steps, m, t, a, b - 1)
    requires Unlocks(states, steps, m, t, a, b) > Locks(states, steps, m, t, a, b)
    ensures !Owns(states[b], m, t)
  {
    hide Inv, Next, Enabled;
    HeldDepth(states, steps, m, t, a, b - 1);
    RunInv(states, steps, b - 1);
    assert states[b] == Next(states[b - 1], steps[b - 1]);
    assert Unlocks(states, steps, m, t, a, b - 1) <= Locks(states, steps, m, t, a, b - 1);
    OwnedStep(states[b - 1], steps[b - 1], m, t);
  }

  /** Over every run: a task that has become the owner is the owner without interruption up to a
      state if and only if up to there it has not unlocked more often than locked again. */
  lemma {:induction false} HeldExactly(states: seq<Sys>, steps: seq<Step>, m: nat, t: Tid, a: nat, b: nat)
    requires Run(states, steps) && a <= b <= |steps| && Became(states, m, t, a)
    ensures (forall c :: a <= c <= b ==> Owns(states[c], m, t)) <==> NotBalanced(states, steps, m, t, a, b)
  {
    hide Inv, Next, Enabled, Became, Owns;
    if NotBalanced(states, steps, m, t, a, b) {
      forall c | a <= c <= b ensures Owns(states[c], m, t) {
        assert NotBalanced(states, steps, m, t, a, c);
        HeldDepth(states, steps, m, t, a, c);
      }
    } else {
      var c := FirstBalanced(states, steps, m, t, a, b);
      ReleasedWhenBalanced(states, steps, m, t, a, c);
    }
  }

  lemma {:induction false} FirstBalanced(states: seq<Sys>, steps: seq<Step>, m: nat, t: Tid, a: nat, b: nat)
    returns (c: nat)
    requires a <= b <= |steps| < |states| && !NotBalanced(states, steps, m, t, a, b)
    ensures a < c <= b && NotBalanced(states, steps, m, t, a, c - 1)
    ensures Unlocks(states, steps, m, t, a, c) > Locks(states, steps, m, t, a, c)
    decreases b
  {
    if a < b && !NotBalanced(states, steps, m, t, a, b - 1) {
      c := FirstBalanced(states, steps, m, t, a, b - 1);
    } else {
      c := b;
    }
  }

  // ----- Single calls -----

  /** Locking again and unlocking restores the mutex, and nobody else runs in between. */
  lemma RelockUnlock(s: Sys, m: nat, try: bool)
    requires Inv(s) && Enabled(s, LockMutex(m, try)) && Owns(s, m, s.current)
    ensures var s1 := Next(s, LockMutex(m, try));
      && s1.current == s.current && s1.tasks == s.tasks && Owns(s1, m, s.current)
      && Enabled(s1, UnlockMutex(m)) && Next(s1, UnlockMutex(m)) == s
  {
    LockedOk(s, m);
    hide Inv;
    var s1 := Next(s, LockMutex(m, try));
    assert s1.mutexes[m].recursion >= 2;
    assert s1.mutexes[m := s.mutexes[m]] == s.mutexes;
  }

  /** Who gets a mutex: the caller if it is free; if another task has it, a caller that only tries
      gets nothing, and one that waits is the last in the queue and cannot run. */
  lemma LockOutcome(s: Sys, m: nat, try: bool)
    requires Inv(s) && Enabled(s, LockMutex(m, try)) && !Owns(s, m, s.current)
    ensures var c, s' := s.current, Next(s, LockMutex(m, try));
      && m < |s'.mutexes|
      && (if s.mutexes[m].owner == None
          then Owns(s', m, c) && s'.tasks == s.tasks && s'.mutexes[m].waiters == s.mutexes[m].waiters
          else
            && s'.mutexes[m].owner == s.mutexes[m].owner
            && (if try then s' == s
                else
                  && s'.mutexes[m].waiters == s.mutexes[m].waiters + [c]
                  && c < |s'.tasks| && BlockedOn(s'.tasks[c], MutexObj(m))))
  {
    LockedOk(s, m);
    StepInv(s, LockMutex(m, try));
    hide Inv, Next;
    StepObjects(s, LockMutex(m, try));
    StepIndex(s, LockMutex(m, try));
    var s' := Next(s, LockMutex(m, try));
    if s.mutexes[m].owner.Some? && !try {
      assert s'.mutexes[m].waiters[|s.mutexes[m].waiters|] == s.current;
      QueuedBlocked(s', m, |s.mutexes[m].waiters|);
    } else {
      Unparked(s, m, try);
    }
  }

  lemma QueuedBlocked(s: Sys, m: nat, i: nat)
    requires Inv(s) && m < |s.mutexes| && i < |s.mutexes[m].waiters|
    ensures var t := s.mutexes[m].waiters[i]; t < |s.tasks| && BlockedOn(s.tasks[t], MutexObj(m))
  {
    hide TableOk, SemsOk, WaitsOk;
  }

  lemma Unparked(s: Sys, m: nat, try: bool)
    requires Inv(s) && Enabled(s, LockMutex(m, try)) && !Owns(s, m, s.current)
    requires s.mutexes[m].owner.None? || try
    ensures var s' := Next(s, LockMutex(m, try));
      s'.tasks == s.tasks && (s.mutexes[m].owner.Some? ==> s' == s)
  {
    LockedOk(s, m);
    hide Inv, Block;
    assert s.mutexes[m := s.mutexes[m]] == s.mutexes;
  }
}
