/**
 The work-stealing task runtime as a step system: every atomic step a worker
 thread, an awaiting thread or a detaching thread takes is one Action, and a run
 is any sequence of enabled actions.

 A thread is a stack of frames, one per task body it is executing; a body that
 waits may be helping, in which case the stolen body's frame sits above it. Frames
 and tasks are named by the time they were made, so a frame started later has a
 larger name. A handle is a token: whoever spawned the task has it, may leave it where
 any body of any thread can take it, and whoever has it may consume it, once.

 A task that was deleted is no longer in `tasks`. A guard that reads a deleted task
 is true, whatever it tests, so a use after free is never hidden by a disabled step.
 */
module TaskRuntime {
  import opened Options
  import opened Sequences

  type Exc = nat

  /** A queue entry: the task and the number of spawns its body and the bodies below it have left. */
  datatype Job = Job(id: nat, work: nat)

  /** Where a task's body is: bookkeeping that no guard reads. */
  datatype Place = Queued(q: nat) | Running(f: nat) | Finished

  /** Who holds the handle returned by spawn: bookkeeping that no guard reads. */
  datatype Holder = Held(f: nat) | Shared | Released

  datatype Task = Task(done: bool, detached: bool, exc: Option<Exc>, mtx: Option<nat>, place: Place, holder: Holder)

  /**
   The program counter inside topo_task_await: about to read done, again if wait_for has just found it
   true; done was read as false; in wait_for with the mutex, which found done true or not; done was read
   as true; the two halves of the barrier.
   */
  datatype WaitPc = Spin(again: bool) | Looked | Parked(passed: bool) | Saw | Barrier(got: Option<Exc>) | Reap(got: Option<Exc>)

  datatype Act =
    | Run
    | Wait(hs: seq<nat>, i: nat, first: Option<Exc>, pc: WaitPc)
    | WantDetach(h: nat)
    | DetachLocked(h: nat, freeNow: bool)
    | DetachFree(h: nat)
    | End(exc: Option<Exc>)
    | EndLocked(freeHere: bool)
    | EndFree

  datatype Frame = Frame(th: nat, task: Option<nat>, above: Option<nat>, below: Option<nat>,
                         owned: set<nat>, work: nat, act: Act)

  datatype State = State(queues: seq<seq<Job>>, tasks: map<nat, Task>, frames: map<nat, Frame>, clock: nat,
                         pool: set<nat>, made: set<nat>, freed: multiset<nat>, leaked: set<nat>, ended: map<nat, Option<Exc>>)

  datatype Action =
    | Spawn(f: nat, q: nat, front: bool, own: nat, child: nat)
    | Share(f: nat, h: nat)
    | Take(f: nat, h: nat)
    | StartWait(f: nat, hs: seq<nat>)
    | Look(f: nat)
    | Help(f: nat, q: nat)
    | Park(f: nat)
    | Pass(f: nat)
    | Unpark(f: nat)
    | See(f: nat)
    | BarrierLock(f: nat)
    | BarrierUnlock(f: nat)
    | ReapTask(f: nat, caught: bool)
    | Finish(f: nat, exc: Option<Exc>)
    | LockDone(f: nat)
    | UnlockDone(f: nat)
    | FreeDone(f: nat)
    | RootExit(f: nat)
    | StartDetach(f: nat, h: nat)
    | LockDetach(f: nat)
    | UnlockDetach(f: nat)
    | FreeDetach(f: nat)
    | WorkerPop(w: nat, q: nat)

  // ---------------------------------------------------------------- guards

  ghost predicate SeesDone(s: State, t: nat) { t in s.tasks ==> s.tasks[t].done }
  ghost predicate SeesUndone(s: State, t: nat) { t in s.tasks ==> !s.tasks[t].done }
  ghost predicate LockFree(s: State, t: nat) { t in s.tasks ==> s.tasks[t].mtx.None? }

  /** The frame exists and is on top of its thread's stack. */
  predicate Top(s: State, f: nat) { f in s.frames && s.frames[f].above.None? }

  predicate IsRunning(s: State, f: nat) { Top(s, f) && s.frames[f].act.Run? }

  /** The frame is in topo_task_await and not held up by a body it is helping. */
  predicate Waits(s: State, f: nat) { Top(s, f) && s.frames[f].act.Wait? && s.frames[f].act.i < |s.frames[f].act.hs| }

  /** The handle a waiting frame is at. */
  function Target(fr: Frame): nat
    requires fr.act.Wait? && fr.act.i < |fr.act.hs|
  {
    fr.act.hs[fr.act.i]
  }

  /** The thread is in worker_loop with no body on its stack. */
  predicate Idle(s: State, w: nat) { forall f :: f in s.frames ==> s.frames[f].th != w }


  // ---------------------------------------------------------------- effects

  function SetAct(s: State, f: nat, act: Act): State
    requires f in s.frames
  {
    s.(frames := s.frames[f := s.frames[f].(act := act)])
  }

  /** Write a task's fields; a deleted task has none. */
  function SetTask(s: State, t: nat, task: Task): State {
    if t in s.tasks then s.(tasks := s.tasks[t := task]) else s
  }

  function GetTask(s: State, t: nat): Task {
    if t in s.tasks then s.tasks[t] else Task(false, false, None, None, Finished, Released)
  }

  function Lock(s: State, t: nat, f: nat): State { SetTask(s, t, GetTask(s, t).(mtx := Some(f))) }

  function Unlock(s: State, t: nat): State { SetTask(s, t, GetTask(s, t).(mtx := None)) }

  /** delete task: the record is gone and the deletion is counted. */
  function Free(s: State, t: nat): State { s.(tasks := s.tasks - {t}, freed := s.freed + multiset{t}) }

  /** The body's frame leaves the stack; handles it never consumed are leaked. */
  function Pop(s: State, f: nat): State
    requires f in s.frames
  {
    var fr := s.frames[f];
    var rest := s.frames - {f};
    s.(frames := if fr.below.Some? && fr.below.value in rest
                 then rest[fr.below.value := rest[fr.below.value].(above := None)] else rest,
       leaked := s.leaked + fr.owned)
  }

  /** A thread starts the body of a job it has just popped, above frame `below` if it is helping. */
  function Start(s: State, th: nat, below: Option<nat>, job: Job): State
    requires below.Some? ==> below.value in s.frames
  {
    var g := s.clock;
    var pushed := if below.Some? then s.frames[below.value := s.frames[below.value].(above := Some(g))] else s.frames;
    var s1 := s.(frames := pushed[g := Frame(th, Some(job.id), None, below, {}, job.work, Run)], clock := g + 1);
    SetTask(s1, job.id, GetTask(s1, job.id).(place := Running(g)))
  }

  function PushJob(queue: seq<Job>, front: bool, job: Job): seq<Job> {
    if front then [job] + queue else queue + [job]
  }

  function TakeBack(s: State, q: nat): State
    requires q < |s.queues| && s.queues[q] != []
  {
    s.(queues := s.queues[q := s.queues[q][..|s.queues[q]| - 1]])
  }

  function TakeFront(s: State, q: nat): State
    requires q < |s.queues| && s.queues[q] != []
  {
    s.(queues := s.queues[q := s.queues[q][1..]])
  }

  function FirstOf(first: Option<Exc>, got: Option<Exc>): Option<Exc> { if first.Some? then first else got }

  // ---------------------------------------------------------------- the steps: guard and effect

  ghost predicate CanSpawn(s: State, f: nat, q: nat, front: bool, own: nat, child: nat) {
    IsRunning(s, f) && q < |s.queues| && own + child + 1 <= s.frames[f].work
  }

  /** topo_task_spawn: a fresh task is pushed to the front or the back of some queue. */
  ghost function DoSpawn(s: State, f: nat, q: nat, front: bool, own: nat, child: nat): State
    requires CanSpawn(s, f, q, front, own, child)
  {
    var t := s.clock;
    s.(queues := s.queues[q := PushJob(s.queues[q], front, Job(t, child))],
       tasks := s.tasks[t := Task(false, false, None, None, Queued(q), Held(f))],
       frames := s.frames[f := s.frames[f].(owned := s.frames[f].owned + {t}, work := own)],
       clock := t + 1, made := s.made + {t})
  }

  ghost predicate CanShare(s: State, f: nat, h: nat) {
    IsRunning(s, f) && h in s.frames[f].owned
  }

  /** A body leaves a handle where others find it. */
  ghost function DoShare(s: State, f: nat, h: nat): State
    requires CanShare(s, f, h)
  {
    SetTask(s, h, GetTask(s, h).(holder := Shared))
      .(frames := s.frames[f := s.frames[f].(owned := s.frames[f].owned - {h})], pool := s.pool + {h})
  }

  ghost predicate CanTake(s: State, f: nat, h: nat) {
    IsRunning(s, f) && h in s.pool
  }

  /** A body, of any thread, picks up a handle somebody left. */
  ghost function DoTake(s: State, f: nat, h: nat): State
    requires CanTake(s, f, h)
  {
    SetTask(s, h, GetTask(s, h).(holder := Held(f)))
      .(frames := s.frames[f := s.frames[f].(owned := s.frames[f].owned + {h})], pool := s.pool - {h})
  }

  ghost predicate CanStartWait(s: State, f: nat, hs: seq<nat>) {
    IsRunning(s, f) && |hs| > 0 && Distinct(hs) && forall h :: h in hs ==> h in s.frames[f].owned
  }

  /** topo_task_await_all on handles this body has; topo_task_await is the case of one. */
  ghost function DoStartWait(s: State, f: nat, hs: seq<nat>): State
    requires CanStartWait(s, f, hs)
  {
    var fr := s.frames[f];
    s.(frames := s.frames[f := fr.(owned := fr.owned - Elems(hs), act := Wait(hs, 0, None, Spin(false)))])
  }

  ghost predicate CanLook(s: State, f: nat) {
    Waits(s, f) && s.frames[f].act.pc.Spin? && SeesUndone(s, Target(s.frames[f]))
  }

  /** The awaiter reads done as false. */
  ghost function DoLook(s: State, f: nat): State
    requires CanLook(s, f)
  {
    SetAct(s, f, s.frames[f].act.(pc := Looked))
  }

  ghost predicate CanHelp(s: State, f: nat, q: nat) {
    Waits(s, f) && s.frames[f].act.pc.Looked? && q < |s.queues| && s.queues[q] != []
  }

  /** The awaiter pops the back of some queue and runs that body on its own stack, then reads done again. */
  ghost function DoHelp(s: State, f: nat, q: nat): State
    requires CanHelp(s, f, q)
  {
    Start(TakeBack(SetAct(s, f, s.frames[f].act.(pc := Spin(false))), q), s.frames[f].th, Some(f), s.queues[q][|s.queues[q]| - 1])
  }

  ghost predicate CanPark(s: State, f: nat) {
    Waits(s, f) && s.frames[f].act.pc.Looked? && LockFree(s, Target(s.frames[f])) && SeesUndone(s, Target(s.frames[f]))
  }

  /** The awaiter takes the task's mutex for wait_for and has to wait. */
  ghost function DoPark(s: State, f: nat): State
    requires CanPark(s, f)
  {
    Lock(SetAct(s, f, s.frames[f].act.(pc := Parked(false))), Target(s.frames[f]), f)
  }

  ghost predicate CanPass(s: State, f: nat) {
    Waits(s, f) && s.frames[f].act.pc.Looked? && LockFree(s, Target(s.frames[f])) && SeesDone(s, Target(s.frames[f]))
  }

  /** The awaiter takes the task's mutex for wait_for, which finds the task done by now. */
  ghost function DoPass(s: State, f: nat): State
    requires CanPass(s, f)
  {
    Lock(SetAct(s, f, s.frames[f].act.(pc := Parked(true))), Target(s.frames[f]), f)
  }

  ghost predicate CanUnpark(s: State, f: nat) {
    Waits(s, f) && s.frames[f].act.pc.Parked?
  }

  /** wait_for is over, or has released the mutex to sleep. */
  ghost function DoUnpark(s: State, f: nat): State
    requires CanUnpark(s, f)
  {
    Unlock(SetAct(s, f, s.frames[f].act.(pc := Spin(s.frames[f].act.pc.passed))), Target(s.frames[f]))
  }

  ghost predicate CanSee(s: State, f: nat) {
    Waits(s, f) && s.frames[f].act.pc.Spin? && SeesDone(s, Target(s.frames[f]))
  }

  /** The awaiter reads done as true and leaves the helping loop. */
  ghost function DoSee(s: State, f: nat): State
    requires CanSee(s, f)
  {
    SetAct(s, f, s.frames[f].act.(pc := Saw))
  }

  ghost predicate CanBarrierLock(s: State, f: nat) {
    Waits(s, f) && s.frames[f].act.pc.Saw? && LockFree(s, Target(s.frames[f]))
  }

  /** The awaiter takes the mutex once more and moves the exception out. */
  ghost function DoBarrierLock(s: State, f: nat): State
    requires CanBarrierLock(s, f)
  {
    var t := Target(s.frames[f]);
    SetTask(SetAct(s, f, s.frames[f].act.(pc := Barrier(GetTask(s, t).exc))), t, GetTask(s, t).(mtx := Some(f), exc := None))
  }

  ghost predicate CanBarrierUnlock(s: State, f: nat) {
    Waits(s, f) && s.frames[f].act.pc.Barrier?
  }

  /** The awaiter releases the mutex. */
  ghost function DoBarrierUnlock(s: State, f: nat): State
    requires CanBarrierUnlock(s, f)
  {
    Unlock(SetAct(s, f, s.frames[f].act.(pc := Reap(s.frames[f].act.pc.got))), Target(s.frames[f]))
  }

  ghost predicate CanReapTask(s: State, f: nat, caught: bool) {
    Waits(s, f) && s.frames[f].act.pc.Reap?
  }

  /** The awaiter deletes the task and goes on to the next handle, or rethrows after the last. */
  ghost function DoReapTask(s: State, f: nat, caught: bool): State
    requires CanReapTask(s, f, caught)
  {
    var act := s.frames[f].act;
    var first := FirstOf(act.first, act.pc.got);
    Free(SetAct(s, f, if act.i + 1 < |act.hs| then Wait(act.hs, act.i + 1, first, Spin(false))
                      else if first.None? || caught then Run else End(first)),
         Target(s.frames[f]))
  }

  ghost predicate CanFinish(s: State, f: nat, exc: Option<Exc>) {
    IsRunning(s, f)
  }

  /** The body returns or throws. */
  ghost function DoFinish(s: State, f: nat, exc: Option<Exc>): State
    requires CanFinish(s, f, exc)
  {
    SetAct(s, f, End(exc))
  }

  ghost predicate CanLockDone(s: State, f: nat) {
    Top(s, f) && s.frames[f].act.End? && s.frames[f].task.Some? && LockFree(s, s.frames[f].task.value)
  }

  /** run_task_safely takes the mutex, stores the exception, sets done and reads detached. */
  ghost function DoLockDone(s: State, f: nat): State
    requires CanLockDone(s, f)
  {
    var t := s.frames[f].task.value;
    var task := GetTask(s, t);
    var exc := s.frames[f].act.exc;
    SetTask(SetAct(s, f, EndLocked(task.detached)), t, task.(done := true, exc := exc, mtx := Some(f)))
      .(ended := s.ended[t := exc])
  }

  ghost predicate CanUnlockDone(s: State, f: nat) {
    Top(s, f) && s.frames[f].act.EndLocked? && s.frames[f].task.Some?
  }

  /** run_task_safely releases the mutex. */
  ghost function DoUnlockDone(s: State, f: nat): State
    requires CanUnlockDone(s, f)
  {
    var t := s.frames[f].task.value;
    if s.frames[f].act.freeHere then Unlock(SetAct(s, f, EndFree), t)
    else Pop(SetTask(s, t, GetTask(s, t).(mtx := None, place := Finished)), f)
  }

  ghost predicate CanFreeDone(s: State, f: nat) {
    Top(s, f) && s.frames[f].act.EndFree? && s.frames[f].task.Some?
  }

  /** run_task_safely deletes a task that was detached while its body ran. */
  ghost function DoFreeDone(s: State, f: nat): State
    requires CanFreeDone(s, f)
  {
    Pop(Free(s, s.frames[f].task.value), f)
  }

  ghost predicate CanRootExit(s: State, f: nat) {
    Top(s, f) && s.frames[f].act.End? && s.frames[f].task.None?
  }

  /** A body that is not a task leaves its thread's stack. */
  ghost function DoRootExit(s: State, f: nat): State
    requires CanRootExit(s, f)
  {
    Pop(s, f)
  }

  ghost predicate CanStartDetach(s: State, f: nat, h: nat) {
    IsRunning(s, f) && h in s.frames[f].owned
  }

  /** topo_task_detach on a handle this body has. */
  ghost function DoStartDetach(s: State, f: nat, h: nat): State
    requires CanStartDetach(s, f, h)
  {
    s.(frames := s.frames[f := s.frames[f].(owned := s.frames[f].owned - {h}, act := WantDetach(h))])
  }

  ghost predicate CanLockDetach(s: State, f: nat) {
    Top(s, f) && s.frames[f].act.WantDetach? && LockFree(s, s.frames[f].act.h)
  }

  /** topo_task_detach takes the mutex, reads done and, if the body is still to finish, sets detached. */
  ghost function DoLockDetach(s: State, f: nat): State
    requires CanLockDetach(s, f)
  {
    var h := s.frames[f].act.h;
    var task := GetTask(s, h);
    SetTask(SetAct(s, f, DetachLocked(h, task.done)), h, task.(mtx := Some(f), detached := task.detached || !task.done))
  }

  ghost predicate CanUnlockDetach(s: State, f: nat) {
    Top(s, f) && s.frames[f].act.DetachLocked?
  }

  /** topo_task_detach releases the mutex. */
  ghost function DoUnlockDetach(s: State, f: nat): State
    requires CanUnlockDetach(s, f)
  {
    var h := s.frames[f].act.h;
    if s.frames[f].act.freeNow then Unlock(SetAct(s, f, DetachFree(h)), h)
    else SetTask(SetAct(s, f, Run), h, GetTask(s, h).(mtx := None, holder := Released))
  }

  ghost predicate CanFreeDetach(s: State, f: nat) {
    Top(s, f) && s.frames[f].act.DetachFree?
  }

  /** topo_task_detach deletes a task whose body had already finished. */
  ghost function DoFreeDetach(s: State, f: nat): State
    requires CanFreeDetach(s, f)
  {
    Free(SetAct(s, f, Run), s.frames[f].act.h)
  }

  ghost predicate CanWorkerPop(s: State, w: nat, q: nat) {
    w < |s.queues| && Idle(s, w) && q < |s.queues| && s.queues[q] != []
  }

  /** An idle worker pops the front of its own queue or steals from the back of another. */
  ghost function DoWorkerPop(s: State, w: nat, q: nat): State
    requires CanWorkerPop(s, w, q)
  {
    if q == w then Start(TakeFront(s, q), w, None, s.queues[q][0])
    else Start(TakeBack(s, q), w, None, s.queues[q][|s.queues[q]| - 1])
  }

  ghost predicate Enabled(s: State, a: Action) {
    match a
    case Spawn(f, q, front, own, child) => CanSpawn(s, f, q, front, own, child)
    case Share(f, h) => CanShare(s, f, h)
    case Take(f, h) => CanTake(s, f, h)
    case StartWait(f, hs) => CanStartWait(s, f, hs)
    case Look(f) => CanLook(s, f)
    case Help(f, q) => CanHelp(s, f, q)
    case Park(f) => CanPark(s, f)
    case Pass(f) => CanPass(s, f)
    case Unpark(f) => CanUnpark(s, f)
    case See(f) => CanSee(s, f)
    case BarrierLock(f) => CanBarrierLock(s, f)
    case BarrierUnlock(f) => CanBarrierUnlock(s, f)
    case ReapTask(f, caught) => CanReapTask(s, f, caught)
    case Finish(f, exc) => CanFinish(s, f, exc)
    case LockDone(f) => CanLockDone(s, f)
    case UnlockDone(f) => CanUnlockDone(s, f)
    case FreeDone(f) => CanFreeDone(s, f)
    case RootExit(f) => CanRootExit(s, f)
    case StartDetach(f, h) => CanStartDetach(s, f, h)
    case LockDetach(f) => CanLockDetach(s, f)
    case UnlockDetach(f) => CanUnlockDetach(s, f)
    case FreeDetach(f) => CanFreeDetach(s, f)
    case WorkerPop(w, q) => CanWorkerPop(s, w, q)
  }

  ghost function Apply(s: State, a: Action): State
    requires Enabled(s, a)
  {
    match a
    case Spawn(f, q, front, own, child) => DoSpawn(s, f, q, front, own, child)
    case Share(f, h) => DoShare(s, f, h)
    case Take(f, h) => DoTake(s, f, h)
    case StartWait(f, hs) => DoStartWait(s, f, hs)
    case Look(f) => DoLook(s, f)
    case Help(f, q) => DoHelp(s, f, q)
    case Park(f) => DoPark(s, f)
    case Pass(f) => DoPass(s, f)
    case Unpark(f) => DoUnpark(s, f)
    case See(f) => DoSee(s, f)
    case BarrierLock(f) => DoBarrierLock(s, f)
    case BarrierUnlock(f) => DoBarrierUnlock(s, f)
    case ReapTask(f, caught) => DoReapTask(s, f, caught)
    case Finish(f, exc) => DoFinish(s, f, exc)
    case LockDone(f) => DoLockDone(s, f)
    case UnlockDone(f) => DoUnlockDone(s, f)
    case FreeDone(f) => DoFreeDone(s, f)
    case RootExit(f) => DoRootExit(s, f)
    case StartDetach(f, h) => DoStartDetach(s, f, h)
    case LockDetach(f) => DoLockDetach(s, f)
    case UnlockDetach(f) => DoUnlockDetach(s, f)
    case FreeDetach(f) => DoFreeDetach(s, f)
    case WorkerPop(w, q) => DoWorkerPop(s, w, q)
  }

  /** A body about to run on a thread outside the pool. */
  predicate IsRoot(fr: Frame, workers: nat) {
    fr.th >= workers && fr.task.None? && fr.above.None? && fr.below.None? && fr.owned == {} && fr.act == Run
  }

  /** No body has run: empty queues, no tasks, and any threads outside the pool about to run a body of their own. */
  ghost predicate Init(s: State) {
    && |s.queues| > 0 && (forall q :: 0 <= q < |s.queues| ==> s.queues[q] == [])
    && s.tasks == map[] && s.pool == {} && s.made == {} && s.freed == multiset{} && s.leaked == {} && s.ended == map[]
    && (forall f :: f in s.frames ==> f < s.clock && IsRoot(s.frames[f], |s.queues|))
    && (forall f, g :: f in s.frames && g in s.frames && s.frames[f].th == s.frames[g].th ==> f == g)
  }

  /** The run that takes the given actions in order, each enabled when taken. */
  ghost predicate Runs(s: State, run: seq<Action>, s': State)
    decreases |run|
  {
    if run == [] then s == s' else Enabled(s, run[0]) && Runs(Apply(s, run[0]), run[1..], s')
  }
}
