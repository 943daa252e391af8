/**
  The synchronisation objects of the RTOS as values: a counting semaphore and a
  recursive mutex, both with a FIFO of waiting tasks and direct hand-off.  Each
  function is the effect of one region between irq_save and irq_restore on the
  object itself; what happens to the task control blocks is added by the
  Scheduler module, and the linked-list realisation by the Kernel module.
 */
module SyncObjects {
  import opened Prelude

  /** A task is named by its slot in the task table. */
  type Tid = nat

  datatype Sem = Sem(count: int, max: int, waiters: seq<Tid>)

  /** Acquired: the call returns true at once.  Refused: it returns false.
      Parked: the caller is blocked and the call returns true when it is resumed. */
  datatype Outcome = Acquired | Refused | Parked

  function SemWait(s: Sem, t: Tid, try: bool): (Sem, Outcome) {
    if s.count > 0 then (s.(count := s.count - 1), Acquired)
    else if try then (s, Refused)
    else (s.(waiters := s.waiters + [t]), Parked)
  }

  /** The second component is the task that is made ready, if any. */
  function SemSignal(s: Sem): (Sem, Option<Tid>) {
    if s.waiters != [] then (s.(waiters := s.waiters[1..]), Some(s.waiters[0]))
    else if s.count < s.max then (s.(count := s.count + 1), None)
    else (s, None)
  }

  datatype Mutex = Mutex(locked: bool, recursion: nat, owner: Option<Tid>, waiters: seq<Tid>)

  function MutexLock(m: Mutex, t: Tid, try: bool): (Mutex, Outcome) {
    if !m.locked then (m.(locked := true, recursion := 1, owner := Some(t)), Acquired)
    else if m.owner == Some(t) then (m.(recursion := m.recursion + 1), Acquired)
    else if try then (m, Refused)
    else (m.(waiters := m.waiters + [t]), Parked)
  }

  function MutexUnlock(m: Mutex, t: Tid): (Mutex, Option<Tid>) {
    if !m.locked || m.owner != Some(t) then (m, None)
    else if m.recursion > 1 then (m.(recursion := m.recursion - 1), None)
    else if m.waiters != [] then
      (m.(owner := Some(m.waiters[0]), recursion := 1, waiters := m.waiters[1..]), Some(m.waiters[0]))
    else (m.(locked := false, recursion := 0, owner := None), None)
  }

  /** A semaphore never has both a token and a waiter. */
  ghost predicate SemOk(s: Sem) {
    && 0 <= s.count
    && (s.waiters != [] ==> s.count == 0)
    && Distinct(s.waiters)
  }

  /** A mutex is locked exactly when it has an owner, who is not queued behind itself. */
  ghost predicate MutexOk(m: Mutex) {
    && (m.locked <==> m.owner.Some?)
    && (m.locked <==> m.recursion >= 1)
    && (m.waiters != [] ==> m.locked)
    && (m.owner.Some? ==> m.owner.value !in m.waiters)
    && Distinct(m.waiters)
  }
}
