/**
 What every step of the task runtime keeps, and what follows for every run: no
 deleted task is touched, none is deleted twice or while its mutex is held, and an
 awaiter gets the exception its tasks ended with.
 */
module TaskSafety {
  import opened Options
  import opened Sequences
  import opened TaskRuntime

  // ---------------------------------------------------------------- the invariant

  /** The handles a frame's current activity still has to consume. */
  function ActHandles(act: Act): set<nat> {
    match act
    case Wait(hs, i, _, _) => if i <= |hs| then set h | h in hs[i..] else {}
    case WantDetach(h) => {h}
    case DetachLocked(h, _) => {h}
    case DetachFree(h) => {h}
    case _ => {}
  }

  /** The frame is between locking and unlocking the mutex of task t. */
  predicate Holding(fr: Frame, t: nat) {
    match fr.act
    case Wait(hs, i, _, pc) => (pc.Parked? || pc.Barrier?) && i < |hs| && hs[i] == t
    case DetachLocked(h, _) => h == t
    case EndLocked(_) => fr.task == Some(t)
    case _ => false
  }

  /** The exception await_all rethrows: that of the first task, by position, whose body threw. */
  function FirstThrown(hs: seq<nat>, ended: map<nat, Option<Exc>>): Option<Exc> {
    if hs == [] then None
    else FirstOf(FirstThrown(hs[..|hs| - 1], ended), if hs[|hs| - 1] in ended then ended[hs[|hs| - 1]] else None)
  }

  predicate QueueOk(s: State, q: nat)
    requires q < |s.queues|
  {
    && (forall i :: 0 <= i < |s.queues[q]| ==> s.queues[q][i].id in s.tasks && s.tasks[s.queues[q][i].id].place == Queued(q))
    && (forall i, j :: 0 <= i < j < |s.queues[q]| ==> s.queues[q][i].id != s.queues[q][j].id)
  }

  predicate InQueue(queue: seq<Job>, t: nat) { exists i :: 0 <= i < |queue| && queue[i].id == t }

  lemma InQueuePush(queue: seq<Job>, front: bool, job: Job, t: nat)
    ensures InQueue(PushJob(queue, front, job), t) <==> t == job.id || InQueue(queue, t)
  {
    var queue' := PushJob(queue, front, job);
    assert queue'[if front then 0 else |queue|] == job;
    if i :| 0 <= i < |queue| && queue[i].id == t {
      assert queue'[if front then i + 1 else i] == queue[i];
    }
  }

  lemma InQueueTake(queue: seq<Job>, i: nat, t: nat)
    requires i < |queue| && InQueue(queue, t) && t != queue[i].id
    ensures InQueue(queue[..i] + queue[i + 1..], t)
  {
    var j :| 0 <= j < |queue| && queue[j].id == t;
    assert (queue[..i] + queue[i + 1..])[if j > i then j - 1 else j] == queue[j];
  }

  predicate PlaceOk(s: State, t: nat)
    requires t in s.tasks
  {
    var task := s.tasks[t];
    match task.place
    case Queued(q) => !task.done && q < |s.queues| && InQueue(s.queues[q], t)
    case Running(f) => f in s.frames && s.frames[f].task == Some(t) && (task.done <==> s.frames[f].act.EndLocked? || s.frames[f].act.EndFree?)
    case Finished => task.done && !task.detached
  }

  predicate HolderOk(s: State, t: nat)
    requires t in s.tasks
  {
    var task := s.tasks[t];
    match task.holder
    case Held(f) =>
      && f < s.clock && t !in s.pool && (f !in s.frames ==> t in s.leaked)
      && (f in s.frames ==> t in s.frames[f].owned + ActHandles(s.frames[f].act))
      && (task.detached ==> f in s.frames && s.frames[f].act == DetachLocked(t, false))
    case Shared => t in s.pool && !task.detached
    case Released => t !in s.pool && task.detached
  }

  /** The stored exception, until the awaiter moves it out under the mutex. */
  predicate ExcOk(s: State, t: nat)
    requires t in s.tasks
  {
    var task := s.tasks[t];
    if task.done then t in s.ended && (task.exc == s.ended[t] || Taken(s, t)) else task.exc == None && t !in s.ended
  }

  predicate Taken(s: State, t: nat)
    requires t in s.tasks
  {
    match s.tasks[t].holder
    case Held(f) => f in s.frames && s.frames[f].act.Wait? && s.frames[f].act.i < |s.frames[f].act.hs| && Target(s.frames[f]) == t
                    && (s.frames[f].act.pc.Barrier? || s.frames[f].act.pc.Reap?)
    case Shared => false
    case Released => false
  }

  predicate TaskOk(s: State, t: nat)
    requires t in s.tasks
  {
    && t < s.clock && t in s.made && s.freed[t] == 0
    && PlaceOk(s, t) && HolderOk(s, t) && ExcOk(s, t)
    && (s.tasks[t].mtx.Some? ==> s.tasks[t].mtx.value in s.frames && Holding(s.frames[s.tasks[t].mtx.value], t))
  }

  predicate LinksOk(s: State, f: nat)
    requires f in s.frames
  {
    var fr := s.frames[f];
    && (fr.above.Some? ==> fr.above.value in s.frames && f < fr.above.value && s.frames[fr.above.value].below == Some(f)
                           && s.frames[fr.above.value].th == fr.th && fr.act.Wait? && fr.act.pc.Spin?)
    && (fr.below.Some? ==> fr.below.value in s.frames && s.frames[fr.below.value].above == Some(f))
  }

  /** What a frame's activity says about the task it is at. */
  predicate ActOk(s: State, f: nat)
    requires f in s.frames
  {
    var fr := s.frames[f];
    match fr.act
    case Wait(hs, i, first, pc) =>
      && i < |hs| && Distinct(hs)
      && first == FirstThrown(hs[..i], s.ended) && (forall j :: 0 <= j < i ==> hs[j] in s.ended && hs[j] !in s.tasks)
      && (pc.Saw? || pc == Spin(true) || pc == Parked(true) ==> hs[i] in s.tasks && s.tasks[hs[i]].done)
      && (pc.Barrier? || pc.Reap? ==> hs[i] in s.tasks && s.tasks[hs[i]].place == Finished && hs[i] in s.ended && pc.got == s.ended[hs[i]])
    case DetachLocked(h, freeNow) =>
      h in s.tasks && (if freeNow then s.tasks[h].place == Finished && !s.tasks[h].detached else s.tasks[h].detached && !s.tasks[h].done)
    case DetachFree(h) => h in s.tasks && s.tasks[h].place == Finished
    case EndLocked(freeHere) => fr.task.Some? && fr.task.value in s.tasks && freeHere == s.tasks[fr.task.value].detached
                                && (freeHere ==> s.tasks[fr.task.value].holder == Released)
    case EndFree => fr.task.Some? && fr.task.value in s.tasks && s.tasks[fr.task.value].holder == Released
    case _ => true
  }

  predicate HandlesOk(s: State, f: nat)
    requires f in s.frames
  {
    var fr := s.frames[f];
    && fr.owned !! ActHandles(fr.act)
    && (forall h :: h in fr.owned + ActHandles(fr.act) ==> h in s.tasks && s.tasks[h].holder == Held(f))
  }

  ghost predicate FrameOk(s: State, f: nat)
    requires f in s.frames
  {
    var fr := s.frames[f];
    && f < s.clock
    && (fr.task.Some? ==> fr.task.value < f && fr.task.value in s.tasks && s.tasks[fr.task.value].place == Running(f))
    && LinksOk(s, f) && ActOk(s, f) && HandlesOk(s, f)
    && (forall t :: Holding(fr, t) ==> t in s.tasks && s.tasks[t].mtx == Some(f))
  }

  predicate HistoryOk(s: State) {
    && (forall t {:trigger t in s.made} :: t in s.made ==> t < s.clock && s.freed[t] <= 1 && (t in s.tasks <==> s.freed[t] == 0))
    && (forall t {:trigger s.freed[t]} :: t in s.freed ==> t in s.made)
    && (forall t {:trigger t in s.ended} :: t in s.ended ==> t in s.made)
    && (forall t {:trigger t in s.leaked} :: t in s.leaked ==> t in s.tasks && s.tasks[t].holder.Held? && s.tasks[t].holder.f !in s.frames && !s.tasks[t].detached)
    && (forall t {:trigger t in s.pool} :: t in s.pool ==> t in s.tasks)
  }

  /** A thread runs one body at a time: it has one stack. */
  ghost predicate OneStack(s: State) {
    forall f, g :: Top(s, f) && Top(s, g) && s.frames[f].th == s.frames[g].th ==> f == g
  }

  ghost predicate Inv(s: State) {
    && |s.queues| > 0
    && (forall q {:trigger QueueOk(s, q)} :: 0 <= q < |s.queues| ==> QueueOk(s, q))
    && (forall t {:trigger TaskOk(s, t)} :: t in s.tasks ==> TaskOk(s, t))
    && (forall f {:trigger FrameOk(s, f)} :: f in s.frames ==> FrameOk(s, f))
    && HistoryOk(s) && OneStack(s)
  }

  lemma InitOk(s: State)
    requires Init(s)
    ensures Inv(s)
  {}


  /** Outcomes already recorded do not change when another task's outcome is recorded. */
  lemma {:induction false} FirstThrownStable(hs: seq<nat>, ended: map<nat, Option<Exc>>, ended': map<nat, Option<Exc>>)
    requires forall h :: h in hs ==> h in ended && h in ended' && ended'[h] == ended[h]
    ensures FirstThrown(hs, ended') == FirstThrown(hs, ended)
  {
    if hs != [] {
      FirstThrownStable(hs[..|hs| - 1], ended, ended');
    }
  }

  // ---------------------------------------------------------------- steps that touch one frame and one task

  /** Only frame f and task t change; t may be deleted. */
  ghost predicate Local(s: State, s': State, f: nat, t: nat) {
    && f in s.frames && f in s'.frames && s'.frames == s.frames[f := s'.frames[f]]
    && s'.frames[f].th == s.frames[f].th && s'.frames[f].above == s.frames[f].above && s'.frames[f].below == s.frames[f].below
    && s'.queues == s.queues && s'.clock == s.clock && s'.made == s.made && s'.leaked == s.leaked
    && (s'.pool == s.pool || s'.pool == s.pool + {t} || s'.pool == s.pool - {t}) && (t in s'.pool ==> t in s'.tasks)
    && (if t !in s.tasks then s'.tasks == s.tasks && s'.freed == s.freed && s'.ended == s.ended
        else if t in s'.tasks then s'.tasks == s.tasks[t := s'.tasks[t]] && s'.freed == s.freed
        else s'.tasks == s.tasks - {t} && s'.freed == s.freed + multiset{t})
    && (s'.ended == s.ended || (t !in s.ended && t in s'.ended && s'.ended == s.ended[t := s'.ended[t]]))
  }

  /** Frame f keeps what every task other than t relies on it for. */
  ghost predicate KeepsOthers(fr: Frame, fr': Frame, t: nat) {
    && (forall u :: u != t && Holding(fr, u) ==> Holding(fr', u))
    && (forall u :: u != t && u in fr.owned + ActHandles(fr.act) ==> u in fr'.owned + ActHandles(fr'.act))
    && (fr.act.DetachLocked? ==> fr.act.h == t)
    && (fr.task.Some? && fr.task.value != t ==>
          fr'.task == fr.task && (fr.act.EndLocked? || fr.act.EndFree? <==> fr'.act.EndLocked? || fr'.act.EndFree?))
    && (fr.act.Wait? && fr.act.i < |fr.act.hs| && (fr.act.pc.Barrier? || fr.act.pc.Reap?) ==> Target(fr) == t)
  }

  /** Only the handle may have moved, and it was not given up. */
  predicate SameButHolder(task: Task, task': Task) {
    task' == task.(holder := task'.holder) && (task'.holder == task.holder || !task'.holder.Released?)
  }

  /** Task t changes only in ways every frame other than f tolerates. */
  ghost predicate KeepsTask(s: State, s': State, f: nat, t: nat)
    requires t in s.tasks
  {
    var task := s.tasks[t];
    && (task.mtx == None || task.mtx == Some(f) || (t in s'.tasks && SameButHolder(task, s'.tasks[t])))
    && (if t in s'.tasks then
          var task' := s'.tasks[t];
          && (task'.mtx == None || task'.mtx == Some(f) || SameButHolder(task, task'))
          && (task'.place == task.place || (task.place == Running(f) && task'.place == Finished))
          && (task'.holder == task.holder || (task.holder == Held(f) && !task'.holder.Held?) || (task.holder == Shared && task'.holder == Held(f)))
          && (task.done ==> task'.done)
        else
          && task.mtx == None
          && ((task.place == Finished && task.holder == Held(f)) || (task.place == Running(f) && task.holder == Released)))
  }

  lemma LocalOtherTask(s: State, s': State, f: nat, t: nat, u: nat)
    requires Local(s, s', f, t) && KeepsOthers(s.frames[f], s'.frames[f], t) && u in s.tasks && u != t && TaskOk(s, u)
    ensures TaskOk(s', u)
  {
    assert PlaceOk(s', u);
    hide PlaceOk;
    assert HolderOk(s', u);
    hide HolderOk;
    assert ExcOk(s', u);
    hide ExcOk;
  }

  lemma LocalOtherAct(s: State, s': State, f: nat, t: nat, g: nat)
    requires Local(s, s', f, t) && (t in s.tasks ==> TaskOk(s, t) && KeepsTask(s, s', f, t))
    requires g in s.frames && g != f && FrameOk(s, g)
    ensures ActOk(s', g)
  {
    hide LinksOk;
    var fr := s.frames[g];
    if fr.act.Wait? {
      FirstThrownStable(fr.act.hs[..fr.act.i], s.ended, s'.ended);
    }
  }

  lemma LocalOtherFrame(s: State, s': State, f: nat, t: nat, g: nat)
    requires Local(s, s', f, t) && (t in s.tasks ==> TaskOk(s, t) && KeepsTask(s, s', f, t))
    requires g in s.frames && g != f && FrameOk(s, g) && FrameOk(s, f)
    requires s.frames[f].above.None?
    ensures FrameOk(s', g)
  {
    var fr := s.frames[g];
    LocalOtherAct(s, s', f, t, g);
    hide ActOk;
    assert fr == s'.frames[g];
    assert t in s.tasks ==> t !in fr.owned + ActHandles(fr.act) || (t in s'.tasks && s'.tasks[t].holder == s.tasks[t].holder);
    assert HandlesOk(s', g);
    hide HandlesOk;
    assert LinksOk(s', g);
  }

  lemma LocalHistory(s: State, s': State, f: nat, t: nat)
    requires HistoryOk(s) && OneStack(s) && Local(s, s', f, t) && (t in s.tasks ==> TaskOk(s, t) && KeepsTask(s, s', f, t))
    requires t in s'.tasks ==> TaskOk(s', t)
    ensures HistoryOk(s') && OneStack(s')
  {}

  lemma LocalKeeps(s: State, s': State, f: nat, t: nat)
    requires Inv(s) && Local(s, s', f, t) && KeepsOthers(s.frames[f], s'.frames[f], t)
    requires t in s.tasks ==> KeepsTask(s, s', f, t)
    requires s.frames[f].above.None?
    requires FrameOk(s', f) && (t in s'.tasks ==> TaskOk(s', t))
    ensures Inv(s')
  {
    assert t in s.tasks ==> TaskOk(s, t);
    LocalHistory(s, s', f, t);
    hide HistoryOk, OneStack;
    forall q | 0 <= q < |s'.queues| ensures QueueOk(s', q) {
      assert QueueOk(s, q);
    }
    forall u | u in s'.tasks && u != t ensures TaskOk(s', u) {
      assert TaskOk(s, u);
      LocalOtherTask(s, s', f, t, u);
    }
    assert FrameOk(s, f);
    forall g | g in s'.frames && g != f ensures FrameOk(s', g) {
      assert FrameOk(s, g);
      LocalOtherFrame(s, s', f, t, g);
    }
  }

  /** A finished body whose worker has released the mutex, and whose handle is still held, is off every stack. */
  lemma Settled(s: State, t: nat)
    requires Inv(s) && t in s.tasks && s.tasks[t].done && s.tasks[t].mtx.None?
    requires s.tasks[t].holder.Held?
    ensures s.tasks[t].place == Finished
  {
    assert TaskOk(s, t);
    assert s.tasks[t].place.Running? ==> FrameOk(s, s.tasks[t].place.f);
  }

  /** Nobody locks a finished task but the frame that holds its handle. */
  lemma OnlyHolderLocks(s: State, f: nat, t: nat)
    requires Inv(s) && t in s.tasks && s.tasks[t].place == Finished && s.tasks[t].holder == Held(f)
    requires f in s.frames ==> !Holding(s.frames[f], t)
    ensures s.tasks[t].mtx.None?
  {
    assert TaskOk(s, t);
    assert s.tasks[t].mtx.Some? ==> FrameOk(s, s.tasks[t].mtx.value);
  }

  lemma StartWaitKeeps(s: State, f: nat, hs: seq<nat>)
    requires Inv(s) && CanStartWait(s, f, hs)
    ensures Inv(DoStartWait(s, f, hs))
  {
    hide HistoryOk, OneStack, QueueOk;
    var s' := DoStartWait(s, f, hs);
    var t := hs[0];
    assert FrameOk(s, f) && TaskOk(s, t);
    assert hs[0..] == hs && hs[..0] == [];
    assert TaskOk(s', t);
    assert FrameOk(s', f);
    LocalKeeps(s, s', f, t);
  }

  lemma ShareKeeps(s: State, f: nat, h: nat)
    requires Inv(s) && CanShare(s, f, h)
    ensures Inv(DoShare(s, f, h))
  {
    hide HistoryOk, OneStack, QueueOk;
    var s' := DoShare(s, f, h);
    assert FrameOk(s, f) && TaskOk(s, h);
    assert TaskOk(s', h);
    assert FrameOk(s', f);
    LocalKeeps(s, s', f, h);
  }

  lemma TakeKeeps(s: State, f: nat, h: nat)
    requires Inv(s) && CanTake(s, f, h)
    ensures Inv(DoTake(s, f, h))
  {
    hide OneStack, QueueOk;
    var s' := DoTake(s, f, h);
    assert h in s.tasks;
    hide HistoryOk;
    assert FrameOk(s, f) && TaskOk(s, h);
    assert s.tasks[h].holder.Shared?;
    assert TaskOk(s', h);
    assert FrameOk(s', f);
    LocalKeeps(s, s', f, h);
  }

  lemma LookKeeps(s: State, f: nat)
    requires Inv(s) && CanLook(s, f)
    ensures Inv(DoLook(s, f))
  {
    hide HistoryOk, OneStack, QueueOk;
    var s' := DoLook(s, f);
    var t := Target(s.frames[f]);
    assert FrameOk(s, f) && TaskOk(s, t);
    assert TaskOk(s', t);
    assert FrameOk(s', f);
    LocalKeeps(s, s', f, t);
  }

  lemma PassKeeps(s: State, f: nat)
    requires Inv(s) && CanPass(s, f)
    ensures Inv(DoPass(s, f))
  {
    hide HistoryOk, OneStack, QueueOk;
    var s' := DoPass(s, f);
    var t := Target(s.frames[f]);
    assert FrameOk(s, f) && TaskOk(s, t);
    assert TaskOk(s', t);
    assert FrameOk(s', f);
    LocalKeeps(s, s', f, t);
  }

  lemma ParkKeeps(s: State, f: nat)
    requires Inv(s) && CanPark(s, f)
    ensures Inv(DoPark(s, f))
  {
    hide HistoryOk, OneStack, QueueOk;
    var s' := DoPark(s, f);
    var t := Target(s.frames[f]);
    assert FrameOk(s, f) && TaskOk(s, t);
    assert TaskOk(s', t);
    assert FrameOk(s', f);
    LocalKeeps(s, s', f, t);
  }

  lemma UnparkKeeps(s: State, f: nat)
    requires Inv(s) && CanUnpark(s, f)
    ensures Inv(DoUnpark(s, f))
  {
    hide HistoryOk, OneStack, QueueOk;
    var s' := DoUnpark(s, f);
    var t := Target(s.frames[f]);
    assert FrameOk(s, f) && TaskOk(s, t);
    assert TaskOk(s', t);
    assert FrameOk(s', f);
    LocalKeeps(s, s', f, t);
  }

  lemma SeeKeeps(s: State, f: nat)
    requires Inv(s) && CanSee(s, f)
    ensures Inv(DoSee(s, f))
  {
    hide HistoryOk, OneStack, QueueOk;
    var s' := DoSee(s, f);
    var t := Target(s.frames[f]);
    assert FrameOk(s, f) && TaskOk(s, t);
    assert TaskOk(s', t);
    assert FrameOk(s', f);
    LocalKeeps(s, s', f, t);
  }

  lemma BarrierLockKeeps(s: State, f: nat)
    requires Inv(s) && CanBarrierLock(s, f)
    ensures Inv(DoBarrierLock(s, f))
  {
    hide HistoryOk, OneStack, QueueOk;
    var s' := DoBarrierLock(s, f);
    var t := Target(s.frames[f]);
    assert FrameOk(s, f) && TaskOk(s, t);
    Settled(s, t);
    assert TaskOk(s', t);
    assert FrameOk(s', f);
    LocalKeeps(s, s', f, t);
  }

  lemma BarrierUnlockKeeps(s: State, f: nat)
    requires Inv(s) && CanBarrierUnlock(s, f)
    ensures Inv(DoBarrierUnlock(s, f))
  {
    hide HistoryOk, OneStack, QueueOk;
    var s' := DoBarrierUnlock(s, f);
    var t := Target(s.frames[f]);
    assert FrameOk(s, f) && TaskOk(s, t);
    assert TaskOk(s', t);
    assert FrameOk(s', f);
    LocalKeeps(s, s', f, t);
  }

  lemma ReapFrame(s: State, f: nat, caught: bool)
    requires Inv(s) && CanReapTask(s, f, caught)
    ensures FrameOk(DoReapTask(s, f, caught), f)
  {
    hide HistoryOk, OneStack, QueueOk;
    var s' := DoReapTask(s, f, caught);
    assert FrameOk(s, f) && TaskOk(s, Target(s.frames[f]));
    var act := s.frames[f].act;
    assert act.hs[..act.i + 1][..act.i] == act.hs[..act.i];
    assert LinksOk(s', f);
    assert ActOk(s', f);
    assert HandlesOk(s', f);
  }

  lemma ReapTaskKeeps(s: State, f: nat, caught: bool)
    requires Inv(s) && CanReapTask(s, f, caught)
    ensures Inv(DoReapTask(s, f, caught))
  {
    hide HistoryOk, OneStack, QueueOk;
    var s' := DoReapTask(s, f, caught);
    var t := Target(s.frames[f]);
    assert FrameOk(s, f) && TaskOk(s, t);
    OnlyHolderLocks(s, f, t);
    ReapFrame(s, f, caught);
    LocalKeeps(s, s', f, t);
  }

  lemma FinishKeeps(s: State, f: nat, exc: Option<Exc>)
    requires Inv(s) && CanFinish(s, f, exc)
    ensures Inv(DoFinish(s, f, exc))
  {
    assert s.clock !in s.pool by { ClockFresh(s); }
    hide HistoryOk, OneStack, QueueOk;
    var s' := DoFinish(s, f, exc);
    assert FrameOk(s, f);
    assert FrameOk(s', f);
    assert s.clock in s.tasks ==> TaskOk(s, s.clock);
    LocalKeeps(s, s', f, s.clock);
  }

  lemma LockDoneKeeps(s: State, f: nat)
    requires Inv(s) && CanLockDone(s, f)
    ensures Inv(DoLockDone(s, f))
  {
    hide HistoryOk, OneStack, QueueOk;
    var s' := DoLockDone(s, f);
    var t := s.frames[f].task.value;
    assert FrameOk(s, f) && TaskOk(s, t);
    if s.tasks[t].holder.Held? && s.tasks[t].holder.f in s.frames {
      assert FrameOk(s, s.tasks[t].holder.f);
    }
    assert TaskOk(s', t);
    assert FrameOk(s', f);
    LocalKeeps(s, s', f, t);
  }

  lemma StartDetachKeeps(s: State, f: nat, h: nat)
    requires Inv(s) && CanStartDetach(s, f, h)
    ensures Inv(DoStartDetach(s, f, h))
  {
    hide HistoryOk, OneStack, QueueOk;
    var s' := DoStartDetach(s, f, h);
    assert FrameOk(s, f) && TaskOk(s, h);
    assert TaskOk(s', h);
    assert FrameOk(s', f);
    LocalKeeps(s, s', f, h);
  }

  lemma LockDetachKeeps(s: State, f: nat)
    requires Inv(s) && CanLockDetach(s, f)
    ensures Inv(DoLockDetach(s, f))
  {
    hide HistoryOk, OneStack, QueueOk;
    var s' := DoLockDetach(s, f);
    var h := s.frames[f].act.h;
    assert FrameOk(s, f) && TaskOk(s, h);
    if s.tasks[h].done {
      Settled(s, h);
    }
    assert TaskOk(s', h);
    assert FrameOk(s', f);
    LocalKeeps(s, s', f, h);
  }

  lemma UnlockDetachKeeps(s: State, f: nat)
    requires Inv(s) && CanUnlockDetach(s, f)
    ensures Inv(DoUnlockDetach(s, f))
  {
    hide HistoryOk, OneStack, QueueOk;
    var s' := DoUnlockDetach(s, f);
    var h := s.frames[f].act.h;
    assert FrameOk(s, f) && TaskOk(s, h);
    assert TaskOk(s', h);
    assert FrameOk(s', f);
    LocalKeeps(s, s', f, h);
  }

  lemma FreeDetachKeeps(s: State, f: nat)
    requires Inv(s) && CanFreeDetach(s, f)
    ensures Inv(DoFreeDetach(s, f))
  {
    hide HistoryOk, OneStack, QueueOk;
    var s' := DoFreeDetach(s, f);
    var h := s.frames[f].act.h;
    assert FrameOk(s, f) && TaskOk(s, h);
    OnlyHolderLocks(s, f, h);
    assert FrameOk(s', f);
    LocalKeeps(s, s', f, h);
  }

  // ---------------------------------------------------------------- steps that pop a frame

  lemma PopTask(s: State, f: nat, t: nat)
    requires Inv(s) && Top(s, f) && s.frames[f].task.None? && s.frames[f].act.End? && t in s.tasks
    ensures TaskOk(Pop(s, f), t)
  {
    hide HistoryOk, OneStack, QueueOk;
    assert TaskOk(s, t) && FrameOk(s, f);
    var s' := Pop(s, f);
    assert HolderOk(s', t);
    assert PlaceOk(s', t);
    assert ExcOk(s', t);
  }

  lemma PopFrame(s: State, f: nat, g: nat)
    requires Inv(s) && Top(s, f) && s.frames[f].task.None? && s.frames[f].act.End? && g in s.frames && g != f
    ensures FrameOk(Pop(s, f), g)
  {
    hide HistoryOk, OneStack, QueueOk;
    assert FrameOk(s, g) && FrameOk(s, f);
    var s' := Pop(s, f);
    assert s'.frames[g] == s.frames[g].(above := s'.frames[g].above);
    assert HandlesOk(s', g);
    hide HandlesOk;
    assert ActOk(s', g);
    hide ActOk;
    assert LinksOk(s', g);
  }

  lemma PopQueue(s: State, f: nat, q: nat)
    requires Inv(s) && Top(s, f) && s.frames[f].task.None? && s.frames[f].act.End? && q < |s.queues|
    ensures QueueOk(Pop(s, f), q)
  {
    assert QueueOk(s, q);
  }

  lemma PopHistory(s: State, f: nat)
    requires Inv(s) && Top(s, f) && s.frames[f].task.None? && s.frames[f].act.End?
    ensures HistoryOk(Pop(s, f)) && OneStack(Pop(s, f))
  {
    hide QueueOk, ActOk;
    var fr := s.frames[f];
    assert FrameOk(s, f);
    assert fr.below.Some? ==> FrameOk(s, fr.below.value);
    forall t | t in fr.owned ensures !s.tasks[t].detached {
      assert TaskOk(s, t);
    }
  }

  lemma PopKeeps(s: State, f: nat)
    requires Inv(s) && Top(s, f) && s.frames[f].task.None? && s.frames[f].act.End?
    ensures Inv(Pop(s, f))
  {
    hide TaskOk, FrameOk, QueueOk, HistoryOk, OneStack;
    var s' := Pop(s, f);
    PopHistory(s, f);
    forall q | 0 <= q < |s'.queues| ensures QueueOk(s', q) {
      PopQueue(s, f, q);
    }
    forall t | t in s'.tasks ensures TaskOk(s', t) {
      PopTask(s, f, t);
    }
    forall g | g in s'.frames ensures FrameOk(s', g) {
      PopFrame(s, f, g);
    }
  }

  /** The frame after its body's task is none of its business any more. */
  function Spent(fr: Frame): Frame { fr.(task := None, act := End(None)) }

  lemma UnlockHandedOver(s: State, f: nat)
    requires Inv(s) && CanUnlockDone(s, f) && s.frames[f].act.freeHere
    ensures Inv(DoUnlockDone(s, f))
  {
    hide HistoryOk, OneStack, QueueOk;
    var s' := DoUnlockDone(s, f);
    var t := s.frames[f].task.value;
    assert FrameOk(s, f) && TaskOk(s, t);
    assert TaskOk(s', t);
    assert FrameOk(s', f);
    LocalKeeps(s, s', f, t);
  }

  /** The state in which a body's frame is about to be popped, its task finished and unlocked. */
  function Unlocked(s: State, f: nat, t: nat): State
    requires f in s.frames && t in s.tasks
  {
    s.(frames := s.frames[f := Spent(s.frames[f])], tasks := s.tasks[t := s.tasks[t].(mtx := None, place := Finished)])
  }

  lemma UnlockedOk(s: State, f: nat)
    requires Inv(s) && CanUnlockDone(s, f) && !s.frames[f].act.freeHere
    ensures s.frames[f].task.value in s.tasks && Inv(Unlocked(s, f, s.frames[f].task.value))
  {
    hide HistoryOk, OneStack, QueueOk;
    var t := s.frames[f].task.value;
    assert FrameOk(s, f) && TaskOk(s, t);
    var s1 := Unlocked(s, f, t);
    assert TaskOk(s1, t);
    assert FrameOk(s1, f);
    LocalKeeps(s, s1, f, t);
  }

  lemma UnlockDoneKeeps(s: State, f: nat)
    requires Inv(s) && CanUnlockDone(s, f)
    ensures Inv(DoUnlockDone(s, f))
  {
    if s.frames[f].act.freeHere {
      UnlockHandedOver(s, f);
    } else {
      UnlockedOk(s, f);
      var s1 := Unlocked(s, f, s.frames[f].task.value);
      PopKeeps(s1, f);
      assert s1.frames - {f} == s.frames - {f};
      assert DoUnlockDone(s, f) == Pop(s1, f);
    }
  }

  /** Nobody locks the task of a body that has freed its handle and is past its own unlock. */
  lemma ReleasedUnlocked(s: State, f: nat)
    requires Inv(s) && f in s.frames && s.frames[f].act.EndFree? && s.frames[f].task.Some?
    ensures s.frames[f].task.value in s.tasks && s.tasks[s.frames[f].task.value].mtx.None?
  {
    assert FrameOk(s, f);
    var t := s.frames[f].task.value;
    assert TaskOk(s, t);
    assert s.tasks[t].mtx.Some? ==> FrameOk(s, s.tasks[t].mtx.value);
  }

  lemma FreeDoneKeeps(s: State, f: nat)
    requires Inv(s) && CanFreeDone(s, f)
    ensures Inv(DoFreeDone(s, f))
  {
    hide HistoryOk, OneStack, QueueOk;
    var s' := DoFreeDone(s, f);
    var t := s.frames[f].task.value;
    assert FrameOk(s, f) && TaskOk(s, t);
    ReleasedUnlocked(s, f);
    var s1 := Free(s, t).(frames := s.frames[f := Spent(s.frames[f])]);
    assert FrameOk(s1, f);
    LocalKeeps(s, s1, f, t);
    PopKeeps(s1, f);
    assert s1.frames - {f} == s.frames - {f};
    assert s' == Pop(s1, f);
  }

  // ---------------------------------------------------------------- steps that make a task or a frame

  lemma ClockFresh(s: State)
    requires Inv(s)
    ensures s.clock !in s.tasks && s.clock !in s.made && s.clock !in s.frames
  {
    assert s.clock in s.tasks ==> TaskOk(s, s.clock);
    assert s.clock in s.frames ==> FrameOk(s, s.clock);
  }

  lemma SpawnQueue(s: State, f: nat, q: nat, front: bool, own: nat, child: nat, r: nat)
    requires Inv(s) && CanSpawn(s, f, q, front, own, child) && r < |s.queues|
    ensures QueueOk(DoSpawn(s, f, q, front, own, child), r)
  {
    ClockFresh(s);
    assert QueueOk(s, r);
  }

  lemma SpawnTask(s: State, f: nat, q: nat, front: bool, own: nat, child: nat, t: nat)
    requires Inv(s) && CanSpawn(s, f, q, front, own, child) && t in s.tasks
    ensures TaskOk(DoSpawn(s, f, q, front, own, child), t)
  {
    var s' := DoSpawn(s, f, q, front, own, child);
    ClockFresh(s);
    assert TaskOk(s, t);
    InQueuePush(s.queues[q], front, Job(s.clock, child), t);
  }

  lemma SpawnNew(s: State, f: nat, q: nat, front: bool, own: nat, child: nat)
    requires Inv(s) && CanSpawn(s, f, q, front, own, child)
    ensures TaskOk(DoSpawn(s, f, q, front, own, child), s.clock)
  {
    var s' := DoSpawn(s, f, q, front, own, child);
    ClockFresh(s);
    InQueuePush(s.queues[q], front, Job(s.clock, child), s.clock);
    assert FrameOk(s, f);
  }

  lemma SpawnFrame(s: State, f: nat, q: nat, front: bool, own: nat, child: nat, g: nat)
    requires Inv(s) && CanSpawn(s, f, q, front, own, child) && g in s.frames
    ensures FrameOk(DoSpawn(s, f, q, front, own, child), g)
  {
    var s' := DoSpawn(s, f, q, front, own, child);
    ClockFresh(s);
    assert FrameOk(s, g) && FrameOk(s, f);
    assert HandlesOk(s', g);
    assert ActOk(s', g);
  }

  lemma SpawnHistory(s: State, f: nat, q: nat, front: bool, own: nat, child: nat)
    requires Inv(s) && CanSpawn(s, f, q, front, own, child)
    ensures HistoryOk(DoSpawn(s, f, q, front, own, child)) && OneStack(DoSpawn(s, f, q, front, own, child))
  {
    ClockFresh(s);
    hide TaskOk, FrameOk, QueueOk;
  }

  lemma SpawnKeeps(s: State, f: nat, q: nat, front: bool, own: nat, child: nat)
    requires Inv(s) && CanSpawn(s, f, q, front, own, child)
    ensures Inv(DoSpawn(s, f, q, front, own, child))
  {
    hide TaskOk, FrameOk, QueueOk, HistoryOk, OneStack;
    var s' := DoSpawn(s, f, q, front, own, child);
    SpawnHistory(s, f, q, front, own, child);
    forall r | 0 <= r < |s'.queues| ensures QueueOk(s', r) {
      SpawnQueue(s, f, q, front, own, child, r);
    }
    forall u | u in s'.tasks ensures TaskOk(s', u) {
      if u == s.clock { SpawnNew(s, f, q, front, own, child); } else { SpawnTask(s, f, q, front, own, child, u); }
    }
    forall g | g in s'.frames ensures FrameOk(s', g) {
      SpawnFrame(s, f, q, front, own, child, g);
    }
  }

  /** The state after thread th takes entry i of queue q and starts its body. */
  function Started(s: State, th: nat, below: Option<nat>, q: nat, i: nat): State
    requires q < |s.queues| && i < |s.queues[q]| && (below.Some? ==> below.value in s.frames)
  {
    Start(s.(queues := s.queues[q := s.queues[q][..i] + s.queues[q][i + 1..]]), th, below, s.queues[q][i])
  }

  /** Thread th may start a body: it is idle, or its top frame is spinning in an await. */
  ghost predicate CanStart(s: State, th: nat, below: Option<nat>) {
    match below
    case Some(f) => Waits(s, f) && s.frames[f].act.pc == Spin(false) && s.frames[f].th == th
    case None => Idle(s, th)
  }

  lemma StartedQueue(s: State, th: nat, below: Option<nat>, q: nat, i: nat, r: nat)
    requires Inv(s) && q < |s.queues| && i < |s.queues[q]| && CanStart(s, th, below) && r < |s.queues|
    ensures QueueOk(Started(s, th, below, q, i), r)
  {
    assert QueueOk(s, r) && QueueOk(s, q);
    var s' := Started(s, th, below, q, i);
    forall j | 0 <= j < |s'.queues[r]| ensures s'.queues[r][j].id in s'.tasks && s'.tasks[s'.queues[r][j].id].place == Queued(r) {
      var j' := if r == q && j >= i then j + 1 else j;
      assert s'.queues[r][j] == s.queues[r][j'];
    }
  }

  lemma StartedTask(s: State, th: nat, below: Option<nat>, q: nat, i: nat, t: nat)
    requires Inv(s) && q < |s.queues| && i < |s.queues[q]| && CanStart(s, th, below) && t in s.tasks
    ensures TaskOk(Started(s, th, below, q, i), t)
  {
    var s' := Started(s, th, below, q, i);
    ClockFresh(s);
    assert TaskOk(s, t) && QueueOk(s, q);
    if s.tasks[t].place == Queued(q) && t != s.queues[q][i].id {
      InQueueTake(s.queues[q], i, t);
    }
    assert PlaceOk(s', t);
    assert HolderOk(s', t);
    assert ExcOk(s', t);
  }

  lemma StartedAct(s: State, th: nat, below: Option<nat>, q: nat, i: nat, g: nat)
    requires q < |s.queues| && i < |s.queues[q]| && CanStart(s, th, below) && g in s.frames && s.clock !in s.frames
    requires FrameOk(s, g) && s.queues[q][i].id in s.tasks && TaskOk(s, s.queues[q][i].id)
    requires s.tasks[s.queues[q][i].id].place == Queued(q)
    ensures ActOk(Started(s, th, below, q, i), g)
  {
    hide LinksOk;
  }

  lemma StartedFrame(s: State, th: nat, below: Option<nat>, q: nat, i: nat, g: nat)
    requires q < |s.queues| && i < |s.queues[q]| && CanStart(s, th, below) && g in s.frames && s.clock !in s.frames
    requires FrameOk(s, g) && s.queues[q][i].id in s.tasks && TaskOk(s, s.queues[q][i].id)
    requires s.tasks[s.queues[q][i].id].place == Queued(q)
    ensures FrameOk(Started(s, th, below, q, i), g)
  {
    var s' := Started(s, th, below, q, i);
    StartedAct(s, th, below, q, i, g);
    hide ActOk;
    assert HandlesOk(s', g);
    hide HandlesOk;
    assert LinksOk(s', g);
  }

  lemma StartedNew(s: State, th: nat, below: Option<nat>, q: nat, i: nat)
    requires Inv(s) && q < |s.queues| && i < |s.queues[q]| && CanStart(s, th, below)
    ensures FrameOk(Started(s, th, below, q, i), s.clock)
  {
    var s' := Started(s, th, below, q, i);
    ClockFresh(s);
    assert QueueOk(s, q) && TaskOk(s, s.queues[q][i].id);
  }

  lemma StartedHistory(s: State, th: nat, below: Option<nat>, q: nat, i: nat)
    requires Inv(s) && q < |s.queues| && i < |s.queues[q]| && CanStart(s, th, below)
    ensures HistoryOk(Started(s, th, below, q, i)) && OneStack(Started(s, th, below, q, i))
  {
    var s' := Started(s, th, below, q, i);
    ClockFresh(s);
    assert QueueOk(s, q) && TaskOk(s, s.queues[q][i].id);
    forall t | t in s'.leaked ensures s'.tasks[t].holder.f !in s'.frames {
      assert TaskOk(s, t);
    }
  }

  lemma StartedKeeps(s: State, th: nat, below: Option<nat>, q: nat, i: nat)
    requires Inv(s) && q < |s.queues| && i < |s.queues[q]| && CanStart(s, th, below)
    ensures Inv(Started(s, th, below, q, i))
  {
    var s' := Started(s, th, below, q, i);
    ClockFresh(s);
    StartedHistory(s, th, below, q, i);
    assert s'.tasks.Keys == s.tasks.Keys && s'.frames.Keys == s.frames.Keys + {s.clock} by {
      assert QueueOk(s, q);
    }
    forall r | 0 <= r < |s'.queues| ensures QueueOk(s', r) {
      StartedQueue(s, th, below, q, i, r);
    }
    forall t | t in s'.tasks ensures TaskOk(s', t) {
      StartedTask(s, th, below, q, i, t);
    }
    forall g | g in s'.frames ensures FrameOk(s', g) {
      if g == s.clock {
        StartedNew(s, th, below, q, i);
      } else {
        assert FrameOk(s, g) && QueueOk(s, q) && TaskOk(s, s.queues[q][i].id);
        StartedFrame(s, th, below, q, i, g);
      }
    }
  }

  /** The awaiter is back at the test of the helping loop. */
  function SpinAgain(s: State, f: nat): State
    requires Waits(s, f)
  {
    SetAct(s, f, s.frames[f].act.(pc := Spin(false)))
  }

  lemma AgainKeeps(s: State, f: nat)
    requires Inv(s) && Waits(s, f) && s.frames[f].act.pc.Looked?
    ensures Inv(SpinAgain(s, f))
  {
    hide HistoryOk, OneStack, QueueOk;
    var s' := SpinAgain(s, f);
    var t := Target(s.frames[f]);
    assert FrameOk(s, f) && TaskOk(s, t);
    assert TaskOk(s', t);
    assert FrameOk(s', f);
    LocalKeeps(s, s', f, t);
  }

  lemma HelpKeeps(s: State, f: nat, q: nat)
    requires Inv(s) && CanHelp(s, f, q)
    ensures Inv(DoHelp(s, f, q))
  {
    var last := |s.queues[q]| - 1;
    assert s.queues[q][..last] + s.queues[q][last + 1..] == s.queues[q][..last];
    AgainKeeps(s, f);
    StartedKeeps(SpinAgain(s, f), s.frames[f].th, Some(f), q, last);
  }

  lemma WorkerPopKeeps(s: State, w: nat, q: nat)
    requires Inv(s) && CanWorkerPop(s, w, q)
    ensures Inv(DoWorkerPop(s, w, q))
  {
    var i := if q == w then 0 else |s.queues[q]| - 1;
    assert s.queues[q][..i] + s.queues[q][i + 1..] == if q == w then s.queues[q][1..] else s.queues[q][..i];
    StartedKeeps(s, w, None, q, i);
  }

  // ---------------------------------------------------------------- whole runs

  /** Every step keeps the invariant. */
  lemma StepKeeps(s: State, a: Action)
    requires Inv(s) && Enabled(s, a)
    ensures Inv(Apply(s, a))
  {
    match a
    case Spawn(f, q, front, own, child) => SpawnKeeps(s, f, q, front, own, child);
    case Share(f, h) => ShareKeeps(s, f, h);
    case Take(f, h) => TakeKeeps(s, f, h);
    case StartWait(f, hs) => StartWaitKeeps(s, f, hs);
    case Look(f) => LookKeeps(s, f);
    case Help(f, q) => HelpKeeps(s, f, q);
    case Park(f) => ParkKeeps(s, f);
    case Pass(f) => PassKeeps(s, f);
    case Unpark(f) => UnparkKeeps(s, f);
    case See(f) => SeeKeeps(s, f);
    case BarrierLock(f) => BarrierLockKeeps(s, f);
    case BarrierUnlock(f) => BarrierUnlockKeeps(s, f);
    case ReapTask(f, caught) => ReapTaskKeeps(s, f, caught);
    case Finish(f, exc) => FinishKeeps(s, f, exc);
    case LockDone(f) => LockDoneKeeps(s, f);
    case UnlockDone(f) => UnlockDoneKeeps(s, f);
    case FreeDone(f) => FreeDoneKeeps(s, f);
    case RootExit(f) => PopKeeps(s, f);
    case StartDetach(f, h) => StartDetachKeeps(s, f, h);
    case LockDetach(f) => LockDetachKeeps(s, f);
    case UnlockDetach(f) => UnlockDetachKeeps(s, f);
    case FreeDetach(f) => FreeDetachKeeps(s, f);
    case WorkerPop(w, q) => WorkerPopKeeps(s, w, q);
  }

  lemma {:induction false} RunKeeps(s: State, run: seq<Action>, s': State)
    requires Inv(s) && Runs(s, run, s')
    ensures Inv(s')
    decreases |run|
  {
    if run != [] {
      StepKeeps(s, run[0]);
      RunKeeps(Apply(s, run[0]), run[1..], s');
    }
  }

  /** The tasks a step reads, locks, writes or deletes. */
  function Touched(s: State, a: Action): set<nat>
    requires Enabled(s, a)
  {
    match a
    case Look(f) => {Target(s.frames[f])}
    case Help(f, q) => {s.queues[q][|s.queues[q]| - 1].id}
    case Park(f) => {Target(s.frames[f])}
    case Pass(f) => {Target(s.frames[f])}
    case Unpark(f) => {Target(s.frames[f])}
    case See(f) => {Target(s.frames[f])}
    case BarrierLock(f) => {Target(s.frames[f])}
    case BarrierUnlock(f) => {Target(s.frames[f])}
    case ReapTask(f, _) => {Target(s.frames[f])}
    case LockDone(f) => {s.frames[f].task.value}
    case UnlockDone(f) => {s.frames[f].task.value}
    case FreeDone(f) => {s.frames[f].task.value}
    case LockDetach(f) => {s.frames[f].act.h}
    case UnlockDetach(f) => {s.frames[f].act.h}
    case FreeDetach(f) => {s.frames[f].act.h}
    case WorkerPop(w, q) => {s.queues[q][if q == w then 0 else |s.queues[q]| - 1].id}
    case _ => {}
  }

  /** The task a step deletes. */
  function Deleted(s: State, a: Action): Option<nat>
    requires Enabled(s, a)
  {
    match a
    case ReapTask(f, _) => Some(Target(s.frames[f]))
    case FreeDone(f) => s.frames[f].task
    case FreeDetach(f) => Some(s.frames[f].act.h)
    case _ => None
  }

  /** The frame that takes a step; a popping worker has none yet. */
  function Actor(a: Action): Option<nat> {
    match a
    case WorkerPop(w, q) => None
    case Spawn(f, q, front, own, child) => Some(f)
    case Share(f, h) => Some(f)
    case Take(f, h) => Some(f)
    case StartWait(f, hs) => Some(f)
    case Look(f) => Some(f)
    case Help(f, q) => Some(f)
    case Park(f) => Some(f)
    case Pass(f) => Some(f)
    case Unpark(f) => Some(f)
    case See(f) => Some(f)
    case BarrierLock(f) => Some(f)
    case BarrierUnlock(f) => Some(f)
    case ReapTask(f, caught) => Some(f)
    case Finish(f, exc) => Some(f)
    case LockDone(f) => Some(f)
    case UnlockDone(f) => Some(f)
    case FreeDone(f) => Some(f)
    case RootExit(f) => Some(f)
    case StartDetach(f, h) => Some(f)
    case LockDetach(f) => Some(f)
    case UnlockDetach(f) => Some(f)
    case FreeDetach(f) => Some(f)
  }

  /** In no run does a step touch a task that was deleted. */
  lemma NoUseAfterFree(s0: State, run: seq<Action>, s: State, a: Action)
    requires Init(s0) && Runs(s0, run, s) && Enabled(s, a)
    ensures Touched(s, a) <= s.tasks.Keys
  {
    InitOk(s0);
    RunKeeps(s0, run, s);
    StepTouches(s, a);
  }

  lemma StepTouches(s: State, a: Action)
    requires Inv(s) && Enabled(s, a)
    ensures Touched(s, a) <= s.tasks.Keys
  {
    match a
    case WorkerPop(w, q) => QueueTouches(s, q, if q == w then 0 else |s.queues[q]| - 1);
    case Help(f, q) => QueueTouches(s, q, |s.queues[q]| - 1);
    case _ => if AwaitStep(a) { AwaitTouches(s, a); } else { EndTouches(s, a); }
  }

  predicate AwaitStep(a: Action) {
    a.Look? || a.Park? || a.Pass? || a.Unpark? || a.See? || a.BarrierLock? || a.BarrierUnlock? || a.ReapTask?
  }

  lemma AwaitTouches(s: State, a: Action)
    requires Inv(s) && Enabled(s, a) && AwaitStep(a)
    ensures Touched(s, a) <= s.tasks.Keys
  {
    hide Inv;
    FrameTouches(s, a.f);
  }

  lemma EndTouches(s: State, a: Action)
    requires Inv(s) && Enabled(s, a) && !AwaitStep(a) && !a.WorkerPop? && !a.Help?
    ensures Touched(s, a) <= s.tasks.Keys
  {
    hide Inv;
    if a.LockDone? || a.UnlockDone? || a.FreeDone? || a.LockDetach? || a.UnlockDetach? || a.FreeDetach? { FrameTouches(s, a.f); }
  }

  /** A queued task has not been deleted. */
  lemma QueueTouches(s: State, q: nat, i: nat)
    requires Inv(s) && q < |s.queues| && i < |s.queues[q]|
    ensures s.queues[q][i].id in s.tasks
  {
    assert QueueOk(s, q);
  }

  /** Neither has a task that some body is at. */
  lemma FrameTouches(s: State, f: nat)
    requires Inv(s) && f in s.frames
    ensures s.frames[f].task.Some? ==> s.frames[f].task.value in s.tasks
    ensures s.frames[f].act.EndLocked? || s.frames[f].act.EndFree? ==> s.frames[f].task.Some?
    ensures s.frames[f].act.Wait? ==> s.frames[f].act.i < |s.frames[f].act.hs| && Target(s.frames[f]) in s.tasks
    ensures s.frames[f].act.WantDetach? || s.frames[f].act.DetachLocked? || s.frames[f].act.DetachFree? ==> s.frames[f].act.h in s.tasks
  {
    hide TaskOk, HistoryOk, OneStack, LinksOk, QueueOk;
    assert FrameOk(s, f);
    assert s.frames[f].act.Wait? ==> Target(s.frames[f]) in ActHandles(s.frames[f].act);
  }

  /**
   In no run is a task deleted twice, or before its body has finished, or while any thread
   holds its mutex, or while it is queued, or while another frame still has its body.
   */
  lemma DeletedOnce(s0: State, run: seq<Action>, s: State, a: Action)
    requires Init(s0) && Runs(s0, run, s) && Enabled(s, a) && Deleted(s, a).Some?
    ensures s.freed[Deleted(s, a).value] == 0 && Apply(s, a).freed[Deleted(s, a).value] == 1
    ensures Deleted(s, a).value in s.tasks && s.tasks[Deleted(s, a).value].done
    ensures s.tasks[Deleted(s, a).value].mtx.None? && !s.tasks[Deleted(s, a).value].place.Queued?
    ensures forall g :: g in s.frames && s.frames[g].task == Deleted(s, a) ==> Actor(a) == Some(g)
  {
    InitOk(s0);
    RunKeeps(s0, run, s);
    var f, t := Actor(a).value, Deleted(s, a).value;
    assert FrameOk(s, f) && TaskOk(s, t);
    if a.FreeDone? {
      ReleasedUnlocked(s, f);
    } else {
      OnlyHolderLocks(s, f, t);
    }
    forall g | g in s.frames && s.frames[g].task == Some(t) ensures g == f {
      assert FrameOk(s, g);
    }
  }

  /** No thread runs a body and no task is queued. */
  predicate Quiescent(s: State) {
    s.frames == map[] && forall q :: 0 <= q < |s.queues| ==> s.queues[q] == []
  }

  /**
   When a run has come to rest every spawned task has finished, and it has been deleted exactly
   once unless its handle was abandoned: still had by a body when that ended, or left for others and never taken.
   */
  lemma AllDeletedAtRest(s0: State, run: seq<Action>, s: State)
    requires Init(s0) && Runs(s0, run, s) && Quiescent(s)
    ensures s.tasks.Keys == s.leaked + s.pool
    ensures forall t :: t in s.made ==> t in s.ended && s.freed[t] == if t in s.leaked + s.pool then 0 else 1
  {
    InitOk(s0);
    RunKeeps(s0, run, s);
    forall t | t in s.tasks ensures t in s.leaked + s.pool && t in s.ended {
      assert TaskOk(s, t) && HolderOk(s, t);
    }
    EndedKeeps(s0, run, s);
  }

  /** A deleted task had an outcome. */
  ghost predicate DeletedEnded(s: State) { forall t :: t in s.freed ==> t in s.ended }

  lemma EndedStep(s: State, a: Action)
    requires Inv(s) && DeletedEnded(s) && Enabled(s, a)
    ensures DeletedEnded(Apply(s, a))
  {
    hide Inv;
    match a
    case ReapTask(f, _) => TargetEnded(s, a);
    case FreeDone(f) => TargetEnded(s, a);
    case FreeDetach(f) => TargetEnded(s, a);
    case _ => OtherStepsDeleteNothing(s, a);
  }

  lemma TargetEnded(s: State, a: Action)
    requires Inv(s) && Enabled(s, a) && Deleted(s, a).Some?
    ensures Deleted(s, a).value in s.ended
  {
    hide HistoryOk, OneStack, QueueOk, LinksOk;
    assert FrameOk(s, a.f) && TaskOk(s, Deleted(s, a).value);
  }

  lemma OtherStepsDeleteNothing(s: State, a: Action)
    requires Enabled(s, a) && !a.ReapTask? && !a.FreeDone? && !a.FreeDetach?
    ensures Apply(s, a).freed == s.freed && forall t :: t in s.ended ==> t in Apply(s, a).ended
  {}

  lemma {:induction false} EndedKeeps(s: State, run: seq<Action>, s': State)
    requires Inv(s) && DeletedEnded(s) && Runs(s, run, s')
    ensures DeletedEnded(s')
    decreases |run|
  {
    if run != [] {
      StepKeeps(s, run[0]);
      EndedStep(s, run[0]);
      EndedKeeps(Apply(s, run[0]), run[1..], s');
    }
  }

  /** FirstThrown is the exception at the lowest index whose task threw, if any did. */
  lemma {:induction false} FirstThrownIsFirst(hs: seq<nat>, ended: map<nat, Option<Exc>>, j: nat)
    requires j < |hs| && (forall h :: h in hs ==> h in ended)
    requires ended[hs[j]].Some? && forall k :: 0 <= k < j ==> ended[hs[k]].None?
    ensures FirstThrown(hs, ended) == ended[hs[j]]
  {
    var rest := hs[..|hs| - 1];
    if j < |rest| {
      FirstThrownIsFirst(rest, ended, j);
    } else {
      NoneThrown(rest, ended);
    }
  }

  lemma {:induction false} NoneThrown(hs: seq<nat>, ended: map<nat, Option<Exc>>)
    requires forall h :: h in hs ==> h in ended && ended[h].None?
    ensures FirstThrown(hs, ended) == None
  {
    if hs != [] {
      NoneThrown(hs[..|hs| - 1], ended);
    }
  }

  /**
   await_all drains every handle whatever its tasks threw, and then rethrows: the last deletion of
   the wait leaves none of the tasks behind and hands the waiting body the exception of the lowest
   index that threw, which the body either catches or ends with.
   */
  lemma AwaitAllRethrowsFirst(s0: State, run: seq<Action>, s: State, f: nat, caught: bool)
    requires Init(s0) && Runs(s0, run, s) && CanReapTask(s, f, caught)
    requires s.frames[f].act.i + 1 == |s.frames[f].act.hs|
    ensures forall h :: h in s.frames[f].act.hs ==> h in s.ended && h !in DoReapTask(s, f, caught).tasks
    ensures var first := FirstThrown(s.frames[f].act.hs, s.ended);
            DoReapTask(s, f, caught).frames[f].act == if first.None? || caught then Run else End(first)
  {
    InitOk(s0);
    RunKeeps(s0, run, s);
    hide HistoryOk, OneStack, Runs, Init;
    assert FrameOk(s, f);
    var act := s.frames[f].act;
    assert act.hs[..act.i] == act.hs[..|act.hs| - 1];
  }

  // ---------------------------------------------------------------- what a body throws

  /** The body of t is about to end with this outcome. */
  ghost predicate Ending(s: State, f: nat, t: nat, exc: Option<Exc>) {
    f in s.frames && s.frames[f].task == Some(t) && s.frames[f].act == End(exc) && s.frames[f].above.None? && t !in s.ended
  }

  ghost predicate Ended(s: State, t: nat, exc: Option<Exc>) { t in s.ended && s.ended[t] == exc }

  ghost predicate EndsWith(s: State, f: nat, t: nat, exc: Option<Exc>) { Ending(s, f, t, exc) || Ended(s, t, exc) }

  /** Only the frame that has the body records its outcome, once. */
  lemma OneOutcome(s: State, g: nat, t: nat)
    requires Inv(s) && CanLockDone(s, g) && s.frames[g].task == Some(t)
    ensures t !in s.ended && forall f :: f in s.frames && s.frames[f].task == Some(t) ==> f == g
  {
    hide HistoryOk, OneStack, QueueOk, LinksOk, HolderOk, ActOk, HandlesOk;
    assert FrameOk(s, g) && TaskOk(s, t);
    forall f | f in s.frames && s.frames[f].task == Some(t) ensures f == g { assert FrameOk(s, f); }
  }

  lemma OutcomesStay(s: State, a: Action)
    requires Enabled(s, a) && !a.LockDone?
    ensures Apply(s, a).ended == s.ended
  {
    hide Enabled, Apply;
    if AwaitStep(a) { AwaitOutcomes(s, a); } else { OtherOutcomes(s, a); }
  }

  lemma AwaitOutcomes(s: State, a: Action)
    requires Enabled(s, a) && AwaitStep(a)
    ensures Apply(s, a).ended == s.ended
  {}

  lemma OtherOutcomes(s: State, a: Action)
    requires Enabled(s, a) && !a.LockDone? && !AwaitStep(a)
    ensures Apply(s, a).ended == s.ended
  {}

  lemma EndingPop(s: State, a: Action, f: nat, t: nat, exc: Option<Exc>)
    requires Inv(s) && Enabled(s, a) && Ending(s, f, t, exc) && (a.UnlockDone? || a.FreeDone? || a.RootExit?)
    ensures Ending(Apply(s, a), f, t, exc)
  {
    hide Inv;
    AboveNone(s, f, a.f);
  }

  lemma EndingStart(s: State, a: Action, f: nat, t: nat, exc: Option<Exc>)
    requires Inv(s) && Enabled(s, a) && Ending(s, f, t, exc) && (a.Help? || a.WorkerPop?)
    ensures Ending(Apply(s, a), f, t, exc)
  {
    hide Inv;
    ClockAbove(s, f);
  }

  lemma EndingOther(s: State, a: Action, f: nat, t: nat, exc: Option<Exc>)
    requires Enabled(s, a) && Ending(s, f, t, exc) && !a.LockDone? && !a.UnlockDone? && !a.FreeDone? && !a.RootExit? && !a.Help? && !a.WorkerPop?
    ensures Ending(Apply(s, a), f, t, exc)
  {
    hide LockFree, SeesDone, SeesUndone;
  }

  lemma EndsWithStep(s: State, a: Action, f: nat, t: nat, exc: Option<Exc>)
    requires Inv(s) && Enabled(s, a) && EndsWith(s, f, t, exc)
    ensures EndsWith(Apply(s, a), f, t, exc)
  {
    if a.LockDone? {
      hide Inv, LockFree;
      if s.frames[a.f].task == Some(t) { OneOutcome(s, a.f, t); }
    } else {
      OutcomesStay(s, a);
      hide Inv, Enabled, Apply;
      if Ended(s, t, exc) {
      } else {
        hide Ending;
        if a.UnlockDone? || a.FreeDone? || a.RootExit? {
          EndingPop(s, a, f, t, exc);
        } else if a.Help? || a.WorkerPop? {
          EndingStart(s, a, f, t, exc);
        } else {
          EndingOther(s, a, f, t, exc);
        }
      }
    }
  }

  lemma ClockAbove(s: State, f: nat)
    requires Inv(s) && f in s.frames
    ensures f < s.clock
  {
    assert FrameOk(s, f);
  }

  lemma AboveNone(s: State, f: nat, g: nat)
    requires Inv(s) && f in s.frames && g in s.frames && s.frames[f].above.None?
    ensures s.frames[g].below != Some(f)
  {
    assert FrameOk(s, g);
  }

  /** Whatever a body ends with, thrown by itself or rethrown by its wait, is what its task is recorded to have ended with, in all that follows. */
  lemma {:induction false} EndReaches(s: State, f: nat, t: nat, exc: Option<Exc>, run: seq<Action>, s': State)
    requires Inv(s) && EndsWith(s, f, t, exc) && Runs(s, run, s')
    ensures EndsWith(s', f, t, exc)
    decreases |run|
  {
    hide Inv, EndsWith, Enabled;
    if run != [] {
      StepKeeps(s, run[0]);
      EndsWithStep(s, run[0], f, t, exc);
      EndReaches(Apply(s, run[0]), f, t, exc, run[1..], s');
    }
  }

  /** A body that throws e, or returns, makes its task end with e, or with nothing: the outcome an awaiter is handed. */
  lemma ThrownReaches(s0: State, run: seq<Action>, s: State, f: nat, exc: Option<Exc>, rest: seq<Action>, s': State)
    requires Init(s0) && Runs(s0, run, s) && CanFinish(s, f, exc) && s.frames[f].task.Some?
    requires Runs(DoFinish(s, f, exc), rest, s') && s.frames[f].task.value in s'.ended
    ensures s'.ended[s.frames[f].task.value] == exc
  {
    var t := s.frames[f].task.value;
    InitOk(s0);
    RunKeeps(s0, run, s);
    StepKeeps(s, Finish(f, exc));
    assert FrameOk(s, f) && TaskOk(s, t);
    hide Inv, Runs;
    assert Ending(DoFinish(s, f, exc), f, t, exc);
    EndReaches(DoFinish(s, f, exc), f, t, exc, rest, s');
  }
}
