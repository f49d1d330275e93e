/** The condition-variable protocol between the loggers' callbacks, the flusher thread and the
    appender's destructor, as a machine of atomic steps that interleave freely. */
module Flusher {

  datatype Owner = Free | ByFlusher | ByCallback(id: nat) | ByDestructor

  /** Where the flusher thread is. Test has read nothing yet; Begin has seen the run flag set. */
  datatype Thread = Test | Begin | Flushing | WantLock | Check | Blocked | Woken | ClearFlag | Unlock | Exited

  /** Where an on_block_available call is that found enough data to notify. */
  datatype Callback = Outside | Locked | FlagSet | Notified

  datatype Destructor = Alive | HasLock | RunCleared | WakeSet | HasNotified | Joining | Joined

  datatype State = State(
    run: bool,
    wake: bool,
    lock: Owner,
    thread: Thread,
    callbacks: map<nat, Callback>,
    destructor: Destructor,
    // history: a request since the last flush began, and flushes begun since run was cleared
    asked: bool,
    lateFlushes: nat)

  datatype Step =
    | ThreadStep
    | SpuriousWakeup
    | CallbackLock(id: nat)
    | CallbackSet(id: nat)
    | CallbackNotify(id: nat)
    | CallbackUnlock(id: nat)
    | DestructorLock
    | DestructorClearRun
    | DestructorSetWake
    | DestructorNotify
    | DestructorUnlock
    | DestructorJoin

  predicate At(s: State, id: nat, pc: Callback) {
    id in s.callbacks && s.callbacks[id] == pc
  }

  predicate Enabled(s: State, step: Step) {
    match step
    case ThreadStep =>
      (match s.thread
       case WantLock => s.lock == Free
       case Woken => s.lock == Free
       case Blocked => false
       case Exited => false
       case _ => true)
    case SpuriousWakeup => s.thread == Blocked
    case CallbackLock(i) => At(s, i, Outside) && s.lock == Free
    case CallbackSet(i) => At(s, i, Locked)
    case CallbackNotify(i) => At(s, i, FlagSet)
    case CallbackUnlock(i) => At(s, i, Notified)
    case DestructorLock => s.destructor == Alive && s.lock == Free
    case DestructorClearRun => s.destructor == HasLock
    case DestructorSetWake => s.destructor == RunCleared
    case DestructorNotify => s.destructor == WakeSet
    case DestructorUnlock => s.destructor == HasNotified
    case DestructorJoin => s.destructor == Joining && s.thread == Exited
  }

  function Notify(t: Thread): Thread {
    if t == Blocked then Woken else t
  }

  /** The flusher thread's own next action. */
  function ThreadNext(s: State): State
    requires Enabled(s, ThreadStep)
  {
    match s.thread
    case Test => s.(thread := if s.run then Begin else Exited)
    case Begin => s.(thread := Flushing, asked := false, lateFlushes := if s.run then 0 else s.lateFlushes + 1)
    case Flushing => s.(thread := WantLock)
    case WantLock => s.(thread := Check, lock := ByFlusher)
    case Check => if s.wake then s.(thread := ClearFlag) else s.(thread := Blocked, lock := Free)
    case Woken => s.(thread := Check, lock := ByFlusher)
    case ClearFlag => s.(thread := Unlock, wake := false)
    case Unlock => s.(thread := Test, lock := Free)
  }

  function Apply(s: State, step: Step): State
    requires Enabled(s, step)
  {
    match step
    case ThreadStep => ThreadNext(s)
    case SpuriousWakeup => s.(thread := Woken)
    case CallbackLock(i) => s.(callbacks := s.callbacks[i := Locked], lock := ByCallback(i))
    case CallbackSet(i) => s.(callbacks := s.callbacks[i := FlagSet], wake := true, asked := true)
    case CallbackNotify(i) => s.(callbacks := s.callbacks[i := Notified], thread := Notify(s.thread))
    case CallbackUnlock(i) => s.(callbacks := s.callbacks[i := Outside], lock := Free)
    case DestructorLock => s.(destructor := HasLock, lock := ByDestructor)
    case DestructorClearRun => s.(destructor := RunCleared, run := false)
    case DestructorSetWake => s.(destructor := WakeSet, wake := true)
    case DestructorNotify => s.(destructor := HasNotified, thread := Notify(s.thread))
    case DestructorUnlock => s.(destructor := Joining, lock := Free)
    case DestructorJoin => s.(destructor := Joined)
  }

  /** start_flush_thread; callbacks may have asked for a flush before it. */
  ghost predicate Init(s: State) {
    && s.run && s.thread == Test && s.lock == Free && s.destructor == Alive && s.lateFlushes == 0
    && forall i | i in s.callbacks :: s.callbacks[i] == Outside
  }

  // ----- The invariant -----

  ghost predicate LockHeld(s: State) {
    && (s.lock == ByFlusher <==> s.thread in {Check, ClearFlag, Unlock})
    && (forall i | i in s.callbacks :: s.callbacks[i] != Outside <==> s.lock == ByCallback(i))
    && (s.lock.ByCallback? ==> s.lock.id in s.callbacks)
    && (s.lock == ByDestructor <==> s.destructor in {HasLock, RunCleared, WakeSet, HasNotified})
  }

  /** Someone inside the critical section has set the wake flag and has not notified yet. */
  ghost predicate NotifyPending(s: State) {
    s.destructor == WakeSet || (s.lock.ByCallback? && At(s, s.lock.id, FlagSet))
  }

  ghost predicate Stopped(s: State) {
    s.destructor in {WakeSet, HasNotified, Joining, Joined}
  }

  /** The thread has passed the wait and has not yet begun the flush, or found the run flag clear. */
  ghost predicate Past(t: Thread) {
    t in {Unlock, Test, Begin, Exited}
  }

  ghost predicate Inv(s: State) {
    && LockHeld(s)
    // no lost wake-up: it never sleeps on a set flag, unless it is about to be notified
    && (s.thread == Blocked && s.wake ==> NotifyPending(s))
    && (s.asked ==> s.wake || Past(s.thread))
    && (s.run <==> s.destructor in {Alive, HasLock})
    && (Stopped(s) ==> s.wake || s.thread in {Unlock, Test, Exited})
    && (s.thread == Exited ==> !s.run)
    && (s.run ==> s.lateFlushes == 0)
    && s.lateFlushes <= 1
    && (s.thread == Begin ==> s.lateFlushes == 0)
    && (s.destructor == Joined ==> s.thread == Exited)
  }

  lemma InitInv(s: State)
    requires Init(s)
    ensures Inv(s)
  {
  }

  lemma StepKeeps(s: State, step: Step)
    requires Inv(s) && Enabled(s, step)
    ensures Inv(Apply(s, step))
  {
  }

  // ----- Runs -----

  predicate Runs(s: State, steps: seq<Step>)
    decreases |steps|
  {
    steps == [] || (Enabled(s, steps[0]) && Runs(Apply(s, steps[0]), steps[1..]))
  }

  function Exec(s: State, steps: seq<Step>): State
    requires Runs(s, steps)
    decreases |steps|
  {
    if steps == [] then s else Exec(Apply(s, steps[0]), steps[1..])
  }

  lemma {:induction false} RunKeeps(s: State, steps: seq<Step>)
    requires Inv(s) && Runs(s, steps)
    ensures Inv(Exec(s, steps))
    decreases |steps|
  {
    if steps != [] {
      StepKeeps(s, steps[0]);
      RunKeeps(Apply(s, steps[0]), steps[1..]);
    }
  }

  /** Whatever the interleaving: the thread sleeps on a set flag only while its notifier is inside the
      critical section, and at most one flush begins once the run flag is clear. */
  lemma NoLostWakeup(s: State, steps: seq<Step>)
    requires Init(s) && Runs(s, steps)
    ensures var s' := Exec(s, steps);
            && (s'.thread == Blocked && s'.wake ==> NotifyPending(s'))
            && s'.lateFlushes <= 1
  {
    InitInv(s);
    RunKeeps(s, steps);
  }

  // ----- Every request is served, every shutdown ends -----

  /** A callback waits for a flush, or the destructor for the thread. */
  ghost predicate Demand(s: State) {
    s.asked || Stopped(s)
  }

  /** At most how many of its own steps the thread is away from a flush or its exit. */
  function Rank(t: Thread): nat {
    match t
    case Exited => 0
    case Begin => 1
    case Test => 2
    case Unlock => 3
    case ClearFlag => 4
    case Check => 5
    case WantLock => 6
    case Woken => 6
    case Blocked => 7
    case Flushing => 7
  }

  /** At most how many of its own steps the thread is away from its exit once it is to stop. */
  function StopRank(t: Thread): nat {
    match t
    case Exited => 0
    case Test => 1
    case Unlock => 2
    case ClearFlag => 3
    case Check => 4
    case WantLock => 5
    case Woken => 5
    case Blocked => 6
    case Flushing => 6
    case Begin => 7
  }

  predicate FlushBegins(s: State, step: Step) {
    step == ThreadStep && s.thread == Begin
  }

  predicate NoFlushBegins(s: State, steps: seq<Step>)
    requires Runs(s, steps)
    decreases |steps|
  {
    steps == [] || (!FlushBegins(s, steps[0]) && NoFlushBegins(Apply(s, steps[0]), steps[1..]))
  }

  function ThreadSteps(steps: seq<Step>): nat {
    if steps == [] then 0 else (if steps[0] == ThreadStep then 1 else 0) + ThreadSteps(steps[1..])
  }

  lemma StepAdvances(s: State, step: Step)
    requires Inv(s) && Enabled(s, step)
    ensures Demand(s) && !FlushBegins(s, step) ==>
      && Demand(Apply(s, step))
      && Rank(Apply(s, step).thread) + (if step == ThreadStep then 1 else 0) <= Rank(s.thread)
    ensures Stopped(s) ==>
      && Stopped(Apply(s, step))
      && StopRank(Apply(s, step).thread) + (if step == ThreadStep then 1 else 0) <= StopRank(s.thread)
  {
  }

  /** From a request on, the thread makes at most seven steps before a flush begins or it has exited. */
  lemma {:induction false} RequestServed(s: State, steps: seq<Step>)
    requires Inv(s) && Demand(s) && Runs(s, steps) && NoFlushBegins(s, steps)
    ensures ThreadSteps(steps) + Rank(Exec(s, steps).thread) <= Rank(s.thread) <= 7
    decreases |steps|
  {
    if steps != [] {
      StepAdvances(s, steps[0]);
      StepKeeps(s, steps[0]);
      RequestServed(Apply(s, steps[0]), steps[1..]);
    }
  }

  /** From the destructor's critical section on, the thread makes at most seven steps before it has exited. */
  lemma {:induction false} ShutdownEnds(s: State, steps: seq<Step>)
    requires Inv(s) && Stopped(s) && Runs(s, steps)
    ensures ThreadSteps(steps) + StopRank(Exec(s, steps).thread) <= StopRank(s.thread) <= 7
    decreases |steps|
  {
    if steps != [] {
      StepAdvances(s, steps[0]);
      StepKeeps(s, steps[0]);
      ShutdownEnds(Apply(s, steps[0]), steps[1..]);
    }
  }

  /** What whoever holds the lock, other than the thread, does next. */
  function HolderStep(s: State): Step {
    match s.lock
    case ByCallback(i) =>
      if At(s, i, Locked) then CallbackSet(i) else if At(s, i, FlagSet) then CallbackNotify(i) else CallbackUnlock(i)
    case _ =>
      match s.destructor
      case HasLock => DestructorClearRun
      case RunCleared => DestructorSetWake
      case WakeSet => DestructorNotify
      case _ => DestructorUnlock
  }

  /** While there is demand, either the thread can move or the holder of the lock can, which is then
      at most four steps from releasing it. */
  lemma NeverStuck(s: State)
    requires Inv(s) && Demand(s) && s.thread != Exited
    ensures Enabled(s, ThreadStep) || (s.lock != Free && s.lock != ByFlusher && Enabled(s, HolderStep(s)))
  {
    if s.thread == Blocked {
      assert s.wake && NotifyPending(s);
    }
  }

  function HolderRank(s: State): nat {
    match s.lock
    case ByCallback(i) => if At(s, i, Locked) then 3 else if At(s, i, FlagSet) then 2 else 1
    case ByDestructor =>
      (match s.destructor
       case HasLock => 4
       case RunCleared => 3
       case WakeSet => 2
       case _ => 1)
    case _ => 0
  }

  lemma HolderLeaves(s: State)
    requires Inv(s) && s.lock != Free && s.lock != ByFlusher
    ensures Enabled(s, HolderStep(s))
    ensures HolderRank(Apply(s, HolderStep(s))) == HolderRank(s) - 1
    ensures HolderRank(s) == 1 ==> Apply(s, HolderStep(s)).lock == Free
  {
  }
}
