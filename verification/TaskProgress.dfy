/**
 Work-helping await. A body is held up by the body it is helping and by the bodies of the tasks it
 waits for; a set of bodies each held up by another of the set is a trap. A trap is never left, and
 without one some step that is neither parking nor passing handles around is enabled until the run
 has come to rest, and only finitely many such steps can be taken. Fork-join programs, whose bodies
 wait only for tasks spawned after they began, have no traps.
 */
module TaskProgress {
  import opened Options
  import opened Sequences
  import opened Paths
  import opened TaskRuntime
  import opened TaskSafety

  // ---------------------------------------------------------------- what holds a body up

  /** The body of task t is being executed by frame g. */
  predicate BodyAt(s: State, t: nat, g: nat) { t in s.tasks && !s.tasks[t].done && s.tasks[t].place == Running(g) }

  predicate WaitsFor(s: State, f: nat, t: nat) { f in s.frames && s.frames[f].act.Wait? && t in ActHandles(s.frames[f].act) }

  /** Frame f cannot end before frame g does: g is the body it is helping, or the body of a task it waits for. */
  ghost predicate HeldUpBy(s: State, f: nat, g: nat) {
    && f in s.frames && g in s.frames
    && (s.frames[f].above == Some(g) || exists t :: WaitsFor(s, f, t) && BodyAt(s, t, g))
  }

  ghost predicate HeldUpIn(s: State, f: nat, c: set<nat>) { exists g :: g in c && HeldUpBy(s, f, g) }

  /** Each frame of the set is held up by one of the set. */
  ghost predicate Trap(s: State, c: set<nat>) {
    c != {} && forall f {:trigger HeldUpIn(s, f, c)} :: f in c ==> HeldUpIn(s, f, c)
  }

  ghost predicate Trapped(s: State) { exists c :: Trap(s, c) }

  // ---------------------------------------------------------------- without a trap some step is enabled

  /** Steps that are neither parking nor passing handles around. */
  predicate Advances(a: Action) { !a.Park? && !a.Share? && !a.Take? }

  /** A thread that wants a mutex can take it, or the frame that has it can release it. */
  lemma LockOrRelease(s: State, t: nat) returns (a: Action)
    requires Inv(s) && t in s.tasks && s.tasks[t].mtx.Some?
    ensures Enabled(s, a) && Advances(a) && !a.StartWait?
  {
    assert TaskOk(s, t);
    var g := s.tasks[t].mtx.value;
    assert FrameOk(s, g);
    match s.frames[g].act
    case Wait(hs, i, first, pc) => a := if pc.Parked? then Unpark(g) else BarrierUnlock(g);
    case DetachLocked(h, freeNow) => a := UnlockDetach(g);
    case EndLocked(freeHere) => a := UnlockDone(g);
  }

  /** An awaiting frame that nothing holds up can read done, help, go through wait_for, or go on. */
  lemma AwaitMoves(s: State, f: nat) returns (a: Action)
    requires Inv(s) && Waits(s, f) && forall g :: !HeldUpBy(s, f, g)
    ensures Enabled(s, a) && Advances(a) && !a.StartWait?
  {
    FrameTouches(s, f);
    var t := Target(s.frames[f]);
    match s.frames[f].act.pc {
      case Spin(again) => a := if s.tasks[t].done then See(f) else Look(f);
      case Looked =>
        if !s.tasks[t].done {
          a := HelpMoves(s, f);
        } else if LockFree(s, t) {
          a := Pass(f);
        } else {
          a := LockOrRelease(s, t);
        }
      case Parked(passed) => a := Unpark(f);
      case Saw => if LockFree(s, t) { a := BarrierLock(f); } else { a := LockOrRelease(s, t); }
      case Barrier(got) => a := BarrierUnlock(f);
      case Reap(got) => a := ReapTask(f, false);
    }
  }

  /** The unfinished task of an awaiting frame that nothing holds up is in some queue. */
  lemma HelpMoves(s: State, f: nat) returns (a: Action)
    requires Inv(s) && Waits(s, f) && s.frames[f].act.pc.Looked? && forall g :: !HeldUpBy(s, f, g)
    requires Target(s.frames[f]) in s.tasks && !s.tasks[Target(s.frames[f])].done
    ensures Enabled(s, a) && Advances(a) && !a.StartWait?
  {
    var t := Target(s.frames[f]);
    assert t in ActHandles(s.frames[f].act);
    assert WaitsFor(s, f, t) && TaskOk(s, t);
    if s.tasks[t].place.Running? {
      assert BodyAt(s, t, s.tasks[t].place.f);
      assert HeldUpBy(s, f, s.tasks[t].place.f);
    }
    a := Help(f, s.tasks[t].place.q);
  }

  lemma LinksHold(s: State, f: nat)
    requires Inv(s) && f in s.frames
    ensures LinksOk(s, f)
  {
    assert FrameOk(s, f);
  }

  /** Whatever a body that nothing holds up is doing, some step can be taken. */
  lemma FreeMoves(s: State, f: nat) returns (a: Action)
    requires Inv(s) && f in s.frames && forall g :: !HeldUpBy(s, f, g)
    ensures Enabled(s, a) && Advances(a) && !a.StartWait?
  {
    FrameTouches(s, f);
    LinksHold(s, f);
    hide Inv;
    var fr := s.frames[f];
    assert fr.above.Some? ==> HeldUpBy(s, f, fr.above.value);
    assert Top(s, f);
    match fr.act {
      case Run => a := Finish(f, None);
      case Wait(hs, i, first, pc) => a := AwaitMoves(s, f);
      case WantDetach(h) => if LockFree(s, h) { a := LockDetach(f); } else { a := LockOrRelease(s, h); }
      case DetachLocked(h, freeNow) => a := UnlockDetach(f);
      case DetachFree(h) => a := FreeDetach(f);
      case End(exc) =>
        if fr.task.None? { a := RootExit(f); }
        else if LockFree(s, fr.task.value) { a := LockDone(f); } else { a := LockOrRelease(s, fr.task.value); }
      case EndLocked(freeHere) => a := UnlockDone(f);
      case EndFree => a := FreeDone(f);
    }
  }

  /** Until the state is at rest, and unless it is trapped, a step that advances is enabled, whatever the number of workers. */
  lemma Progress(s: State) returns (a: Action)
    requires Inv(s) && !Trapped(s) && !Quiescent(s)
    ensures Enabled(s, a) && Advances(a) && !a.StartWait?
  {
    hide TaskOk, FrameOk, HistoryOk, OneStack, QueueOk;
    if s.frames == map[] {
      var q :| 0 <= q < |s.queues| && s.queues[q] != [];
      a := WorkerPop(q, q);
    } else {
      var any :| any in s.frames;
      assert any in s.frames.Keys;
      assert !Trap(s, s.frames.Keys);
      var f :| f in s.frames.Keys && !HeldUpIn(s, f, s.frames.Keys);
      forall g ensures !HeldUpBy(s, f, g) {
        assert g in s.frames.Keys <==> g in s.frames;
      }
      a := FreeMoves(s, f);
    }
  }

  // ---------------------------------------------------------------- a trap is never left, and only a wait makes one

  /** What a step other than beginning a wait does to what holds bodies up: nothing new, but for a body just started. */
  ghost predicate Looser(s: State, s': State) {
    && (forall f {:trigger s'.frames[f]} :: f in s'.frames ==>
          if f in s.frames then
            && (s'.frames[f].above == s.frames[f].above || s'.frames[f].above == None || s'.frames[f].above == Some(s.clock))
            && (s'.frames[f].act.Wait? ==> s.frames[f].act.Wait? && ActHandles(s'.frames[f].act) <= ActHandles(s.frames[f].act))
          else s'.frames[f].above == None && s'.frames[f].act == Run)
    && (forall t, g {:trigger BodyAt(s', t, g)} :: BodyAt(s', t, g) && g in s.frames ==> BodyAt(s, t, g))
    && (forall g :: g in s'.frames ==> g in s.frames || g == s.clock)
  }

  lemma LooserStep(s: State, a: Action)
    requires Inv(s) && Enabled(s, a) && !a.StartWait?
    ensures Looser(s, Apply(s, a))
  {
    ClockFresh(s);
    hide Inv;
    if AwaitStep(a) {
      LooserAwait(s, a);
    } else if a.WorkerPop? || a.Help? {
      LooserStart(s, a);
    } else if Pops(a) {
      LooserPop(s, a);
    } else if EndStep(a) {
      LooserEnd(s, a);
    } else {
      LooserOther(s, a);
    }
  }

  predicate Pops(a: Action) { a.UnlockDone? || a.FreeDone? || a.RootExit? }

  predicate EndStep(a: Action) { a.Finish? || a.LockDone? || a.LockDetach? || a.UnlockDetach? || a.FreeDetach? }

  lemma LooserPop(s: State, a: Action)
    requires Enabled(s, a) && Pops(a)
    ensures Looser(s, Apply(s, a))
  {
    hide Looser;
    match a
    case UnlockDone(f) => LooserUnlockDone(s, f);
    case FreeDone(f) => LooserFreeDone(s, f);
    case RootExit(f) => LooserRootExit(s, f);
  }

  lemma LooserUnlockDone(s: State, f: nat)
    requires CanUnlockDone(s, f)
    ensures Looser(s, DoUnlockDone(s, f))
  {}

  lemma LooserFreeDone(s: State, f: nat)
    requires CanFreeDone(s, f)
    ensures Looser(s, DoFreeDone(s, f))
  {}

  lemma LooserRootExit(s: State, f: nat)
    requires CanRootExit(s, f)
    ensures Looser(s, DoRootExit(s, f))
  {}

  lemma LooserEnd(s: State, a: Action)
    requires Enabled(s, a) && EndStep(a)
    ensures Looser(s, Apply(s, a))
  {
    EndOnlyAct(s, a);
    hide Enabled, Apply;
  }

  /** A step of a body that is not in an await moves its activity, and no body's place. */
  ghost predicate OnlyAct(s: State, s': State, f: nat) {
    && f in s.frames && !s.frames[f].act.Wait? && f in s'.frames && !s'.frames[f].act.Wait?
    && s'.frames == s.frames[f := s.frames[f].(act := s'.frames[f].act)]
    && s'.queues == s.queues && s'.clock == s.clock && s'.pool == s.pool
    && s'.tasks.Keys <= s.tasks.Keys && (forall t {:trigger s'.tasks[t]} :: t in s'.tasks ==>
          s'.tasks[t].place == s.tasks[t].place && (s.tasks[t].done ==> s'.tasks[t].done))
  }

  lemma EndOnlyAct(s: State, a: Action)
    requires Enabled(s, a) && EndStep(a)
    ensures OnlyAct(s, Apply(s, a), a.f)
  {}

  lemma LooserAwait(s: State, a: Action)
    requires Enabled(s, a) && AwaitStep(a)
    ensures Looser(s, Apply(s, a))
  {
    if !a.ReapTask? {
      AwaitOnlyPc(s, a);
      hide Enabled, Apply;
    }
  }

  /** A step within an await that deletes nothing moves one program counter, and no body's place. */
  ghost predicate OnlyPc(s: State, s': State, f: nat) {
    && f in s.frames && s.frames[f].act.Wait? && f in s'.frames && s'.frames[f].act.Wait?
    && s'.frames == s.frames[f := s.frames[f].(act := s.frames[f].act.(pc := s'.frames[f].act.pc))]
    && s'.queues == s.queues && s'.clock == s.clock && s'.pool == s.pool
    && s'.tasks.Keys == s.tasks.Keys && (forall t {:trigger s'.tasks[t]} :: t in s.tasks ==>
          s'.tasks[t].done == s.tasks[t].done && s'.tasks[t].place == s.tasks[t].place)
  }

  lemma AwaitOnlyPc(s: State, a: Action)
    requires Enabled(s, a) && AwaitStep(a) && !a.ReapTask?
    ensures OnlyPc(s, Apply(s, a), a.f)
  {}

  lemma LooserStart(s: State, a: Action)
    requires Enabled(s, a) && (a.WorkerPop? || a.Help?) && s.clock !in s.frames
    ensures Looser(s, Apply(s, a))
  {
    hide Looser;
    match a
    case Help(f, q) => LooserHelp(s, f, q);
    case WorkerPop(w, q) => LooserWorkerPop(s, w, q);
  }

  lemma LooserHelp(s: State, f: nat, q: nat)
    requires CanHelp(s, f, q) && s.clock !in s.frames
    ensures Looser(s, DoHelp(s, f, q))
  {}

  lemma LooserWorkerPop(s: State, w: nat, q: nat)
    requires CanWorkerPop(s, w, q) && s.clock !in s.frames
    ensures Looser(s, DoWorkerPop(s, w, q))
  {}

  lemma LooserOther(s: State, a: Action)
    requires Enabled(s, a) && (a.Spawn? || a.Share? || a.Take? || a.StartDetach?)
    ensures Looser(s, Apply(s, a))
  {}

  lemma HeldUpBefore(s: State, s': State, f: nat, g: nat)
    requires Looser(s, s') && s.clock !in s.frames && HeldUpBy(s', f, g) && g in s.frames
    ensures HeldUpBy(s, f, g)
  {
    if t :| WaitsFor(s', f, t) && BodyAt(s', t, g) {
      assert WaitsFor(s, f, t) && BodyAt(s, t, g);
    }
  }

  /** A body just started is held up by nothing. */
  lemma NotNew(s: State, s': State, g: nat, c: set<nat>)
    requires Looser(s, s') && HeldUpIn(s', g, c)
    ensures g in s.frames
  {
    var h :| h in c && HeldUpBy(s', g, h);
    assert s'.frames[g].act.Wait? || s'.frames[g].above.Some?;
  }

  lemma TrapBefore(s: State, a: Action, c: set<nat>)
    requires Inv(s) && Enabled(s, a) && !a.StartWait? && Trap(Apply(s, a), c)
    ensures Trap(s, c)
  {
    var s' := Apply(s, a);
    LooserStep(s, a);
    ClockFresh(s);
    hide Inv, Enabled, Apply;
    forall f | f in c ensures HeldUpIn(s, f, c) {
      assert HeldUpIn(s', f, c);
      var g :| g in c && HeldUpBy(s', f, g);
      assert HeldUpIn(s', g, c);
      NotNew(s, s', g, c);
      HeldUpBefore(s, s', f, g);
    }
  }

  /** No step but the beginning of a wait makes a trap. */
  lemma StaysFree(s: State, a: Action)
    requires Inv(s) && Enabled(s, a) && !a.StartWait? && !Trapped(s)
    ensures !Trapped(Apply(s, a))
  {
    hide Inv, Enabled, Apply, Trap;
    if c :| Trap(Apply(s, a), c) { TrapBefore(s, a, c); }
  }

  // ---------------------------------------------------------------- when the beginning of a wait makes a trap

  ghost function HeldUpSteps(s: State): (nat, nat) -> bool { (f: nat, g: nat) => HeldUpBy(s, f, g) }

  /** f cannot end before g does, through any number of bodies, or is g. */
  ghost predicate HeldUpThrough(s: State, f: nat, g: nat) { Closure(HeldUpSteps(s), f, g) }

  /** The body of one of the tasks cannot end before frame f does. */
  ghost predicate WaitsInCircle(s: State, f: nat, hs: seq<nat>) {
    exists h, g :: h in hs && BodyAt(s, h, g) && g in s.frames && HeldUpThrough(s, g, f)
  }

  /** Beginning a wait adds what holds up the waiting body, which nothing held up before, and changes nothing else. */
  lemma WaitEdges(s: State, f: nat, hs: seq<nat>, x: nat, y: nat)
    requires CanStartWait(s, f, hs)
    ensures x != f ==> (HeldUpBy(DoStartWait(s, f, hs), x, y) <==> HeldUpBy(s, x, y))
    ensures HeldUpBy(DoStartWait(s, f, hs), f, y) <==> y in s.frames && exists h :: h in hs && BodyAt(s, h, y)
    ensures !HeldUpBy(s, f, y)
  {
    var s' := DoStartWait(s, f, hs);
    assert hs[0..] == hs;
    assert forall t, g :: BodyAt(s', t, g) <==> BodyAt(s, t, g);
    assert forall t :: WaitsFor(s', f, t) <==> t in hs;
    assert x != f ==> forall t :: WaitsFor(s', x, t) <==> WaitsFor(s, x, t);
    if h :| h in hs && BodyAt(s, h, y) && y in s.frames {
      assert WaitsFor(s', f, h) && BodyAt(s', h, y);
    }
    if x != f {
      if t :| WaitsFor(s', x, t) && BodyAt(s', t, y) { assert WaitsFor(s, x, t) && BodyAt(s, t, y); }
      if t :| WaitsFor(s, x, t) && BodyAt(s, t, y) { assert WaitsFor(s', x, t) && BodyAt(s', t, y); }
    }
  }

  /** The bodies on a circle through f are a trap. */
  lemma CircleTraps(s: State, f: nat, hs: seq<nat>)
    requires CanStartWait(s, f, hs) && WaitsInCircle(s, f, hs)
    ensures Trapped(DoStartWait(s, f, hs))
  {
    hide HeldUpBy, DoStartWait, CanStartWait, BodyAt;
    var s' := DoStartWait(s, f, hs);
    var h, g :| h in hs && BodyAt(s, h, g) && g in s.frames && HeldUpThrough(s, g, f);
    var p :| PathTo(HeldUpSteps(s), p, g, f);
    var c := Elems(p);
    assert g in c;
    forall x | x in c ensures HeldUpIn(s', x, c) {
      WaitEdges(s, f, hs, x, g);
      if x != f {
        var i :| 0 <= i < |p| && p[i] == x;
        assert HeldUpSteps(s)(p[i], p[i + 1]);
        WaitEdges(s, f, hs, x, p[i + 1]);
        assert p[i + 1] in c && HeldUpBy(s', x, p[i + 1]);
      }
    }
    assert Trap(s', c);
  }

  /** In a new trap, what holds up the waiting body is held up by it in turn. */
  lemma TrapCircle(s: State, f: nat, hs: seq<nat>, c: set<nat>)
    requires CanStartWait(s, f, hs) && !Trapped(s) && Trap(DoStartWait(s, f, hs), c)
    ensures WaitsInCircle(s, f, hs)
  {
    hide HeldUpBy, DoStartWait, CanStartWait, BodyAt;
    var s' := DoStartWait(s, f, hs);
    if f !in c {
      assert !Trap(s, c);
      forall x | x in c ensures HeldUpIn(s, x, c) {
        TrapEdge(s, f, hs, c, x);
      }
    } else {
      assert HeldUpIn(s', f, c);
      var g :| g in c && HeldUpBy(s', f, g);
      WaitEdges(s, f, hs, f, g);
      var h :| h in hs && BodyAt(s, h, g);
      CircleCloses(s, f, hs, c, g);
    }
  }

  lemma TrapEdge(s: State, f: nat, hs: seq<nat>, c: set<nat>, x: nat)
    requires CanStartWait(s, f, hs) && Trap(DoStartWait(s, f, hs), c) && x in c && x != f
    ensures HeldUpIn(s, x, c)
  {
    hide HeldUpBy, DoStartWait, CanStartWait;
    assert HeldUpIn(DoStartWait(s, f, hs), x, c);
    var y :| y in c && HeldUpBy(DoStartWait(s, f, hs), x, y);
    WaitEdges(s, f, hs, x, y);
  }

  lemma CircleCloses(s: State, f: nat, hs: seq<nat>, c: set<nat>, g: nat)
    requires CanStartWait(s, f, hs) && !Trapped(s) && Trap(DoStartWait(s, f, hs), c) && g in c
    ensures HeldUpThrough(s, g, f)
  {
    hide HeldUpBy, DoStartWait, CanStartWait, Closure, Trapped;
    if !HeldUpThrough(s, g, f) {
      var r := set x | x in c && HeldUpThrough(s, g, x);
      ClosureSelf(HeldUpSteps(s), g);
      assert g in r;
      forall x | x in r ensures HeldUpIn(s, x, r) {
        TrapEdge(s, f, hs, c, x);
        var y :| y in c && HeldUpBy(s, x, y);
        ClosureStep(HeldUpSteps(s), g, x, y);
        assert y in r;
      }
      TrapIs(s, r);
    }
  }

  lemma TrapIs(s: State, c: set<nat>)
    requires c != {} && forall x :: x in c ==> HeldUpIn(s, x, c)
    ensures Trapped(s)
  {
    assert Trap(s, c);
  }

  /** Beginning a wait makes a trap exactly if the body of a task waited for cannot end before the waiting one does. */
  lemma StartWaitTrapsExactly(s: State, f: nat, hs: seq<nat>)
    requires Inv(s) && CanStartWait(s, f, hs) && !Trapped(s)
    ensures Trapped(DoStartWait(s, f, hs)) <==> WaitsInCircle(s, f, hs)
  {
    hide Inv, CanStartWait, DoStartWait, WaitsInCircle;
    if WaitsInCircle(s, f, hs) { CircleTraps(s, f, hs); }
    if c :| Trap(DoStartWait(s, f, hs), c) { TrapCircle(s, f, hs, c); }
  }

  /** A frame held up is in an await. */
  lemma HeldUpWaits(s: State, f: nat, g: nat)
    requires Inv(s) && HeldUpBy(s, f, g)
    ensures s.frames[f].act.Wait?
  {
    assert FrameOk(s, f);
  }

  /** What a step leaves as it is for a frame x in an await: the body it helps if that is in an await too, and its unfinished handles. */
  ghost predicate Tighter(s: State, s': State, x: nat)
    requires x in s.frames
  {
    && x in s'.frames
    && (s.frames[x].above.Some? && s.frames[x].above.value in s.frames && s.frames[s.frames[x].above.value].act.Wait? ==>
          s'.frames[x].above == s.frames[x].above)
    && (forall t {:trigger WaitsFor(s', x, t)} :: WaitsFor(s, x, t) && t in s.tasks && !s.tasks[t].done ==> WaitsFor(s', x, t))
  }

  lemma TighterStep(s: State, a: Action, x: nat)
    requires Inv(s) && Enabled(s, a) && x in s.frames && s.frames[x].act.Wait?
    ensures Tighter(s, Apply(s, a), x)
  {
    if a.ReapTask? {
      TighterReap(s, a.f, a.caught, x);
    } else if Pops(a) {
      TighterPop(s, a, x);
    } else {
      ClockFresh(s);
      LinksHold(s, x);
      hide Inv;
      if AwaitStep(a) { TighterAwait(s, a, x); } else if EndStep(a) { TighterEnd(s, a, x); } else { TighterOther(s, a, x); }
    }
  }

  lemma TighterAwait(s: State, a: Action, x: nat)
    requires Enabled(s, a) && AwaitStep(a) && !a.ReapTask? && x in s.frames && s.frames[x].act.Wait?
    ensures Tighter(s, Apply(s, a), x)
  {
    AwaitOnlyPc(s, a);
    hide Enabled, Apply;
  }

  lemma TighterEnd(s: State, a: Action, x: nat)
    requires Enabled(s, a) && EndStep(a) && x in s.frames && s.frames[x].act.Wait?
    ensures Tighter(s, Apply(s, a), x)
  {
    EndOnlyAct(s, a);
    hide Enabled, Apply;
  }

  lemma TighterPop(s: State, a: Action, x: nat)
    requires Inv(s) && Enabled(s, a) && Pops(a) && x in s.frames && s.frames[x].act.Wait?
    ensures Tighter(s, Apply(s, a), x)
  {
    LinksHold(s, a.f);
    hide Inv;
  }

  lemma TighterOther(s: State, a: Action, x: nat)
    requires Enabled(s, a) && !AwaitStep(a) && !EndStep(a) && !Pops(a) && x in s.frames && s.frames[x].act.Wait? && s.clock !in s.frames
    requires LinksOk(s, x)
    ensures Tighter(s, Apply(s, a), x)
  {}

  lemma TighterReap(s: State, f: nat, caught: bool, x: nat)
    requires Inv(s) && CanReapTask(s, f, caught) && x in s.frames && s.frames[x].act.Wait?
    ensures Tighter(s, DoReapTask(s, f, caught), x)
  {
    assert FrameOk(s, f) && TaskOk(s, Target(s.frames[f]));
  }

  /** A body that is in an await stays where it is, and its task undone. */
  lemma BodyStays(s: State, a: Action, t: nat, g: nat)
    requires Inv(s) && Enabled(s, a) && BodyAt(s, t, g) && g in s.frames && s.frames[g].act.Wait?
    ensures BodyAt(Apply(s, a), t, g)
  {
    assert TaskOk(s, t);
    if a.Help? || a.WorkerPop? {
      BodyStaysAtStart(s, a, t, g);
    } else if Pops(a) {
      BodyStaysAtPop(s, a, t, g);
    } else if EndStep(a) {
      BodyStaysAtEnd(s, a, t, g);
    } else if a.ReapTask? {
      TargetDone(s, a.f);
    } else if AwaitStep(a) {
      AwaitOnlyPc(s, a);
    } else {
      BodyStaysAtOther(s, a, t, g);
    }
  }

  lemma BodyStaysAtStart(s: State, a: Action, t: nat, g: nat)
    requires Inv(s) && Enabled(s, a) && (a.Help? || a.WorkerPop?) && BodyAt(s, t, g)
    ensures BodyAt(Apply(s, a), t, g)
  {
    QueuedElsewhere(s, a.q, if a.WorkerPop? && a.q == a.w then 0 else |s.queues[a.q]| - 1, t);
    hide Inv;
  }

  lemma BodyStaysAtOther(s: State, a: Action, t: nat, g: nat)
    requires Inv(s) && Enabled(s, a) && (a.Spawn? || a.Share? || a.Take? || a.StartWait? || a.StartDetach?) && BodyAt(s, t, g)
    ensures BodyAt(Apply(s, a), t, g)
  {
    ClockFresh(s);
    hide Inv;
  }

  lemma QueuedElsewhere(s: State, q: nat, i: nat, t: nat)
    requires Inv(s) && q < |s.queues| && i < |s.queues[q]| && t in s.tasks && !s.tasks[t].place.Queued?
    ensures s.queues[q][i].id != t
  {
    assert QueueOk(s, q);
  }

  lemma TargetDone(s: State, f: nat)
    requires Inv(s) && Waits(s, f) && s.frames[f].act.pc.Reap?
    ensures Target(s.frames[f]) in s.tasks && s.tasks[Target(s.frames[f])].done
  {
    assert FrameOk(s, f) && TaskOk(s, Target(s.frames[f]));
  }

  lemma BodyStaysAtEnd(s: State, a: Action, t: nat, g: nat)
    requires Inv(s) && Enabled(s, a) && EndStep(a) && BodyAt(s, t, g) && g in s.frames && s.frames[g].act.Wait?
    ensures BodyAt(Apply(s, a), t, g)
  {
    if a.FreeDetach? { DetachedDone(s, a.f); }
    if s.frames[a.f].task.Some? { BodyOf(s, a.f); }
    hide Inv;
  }

  lemma BodyStaysAtPop(s: State, a: Action, t: nat, g: nat)
    requires Inv(s) && Enabled(s, a) && Pops(a) && BodyAt(s, t, g) && g in s.frames && s.frames[g].act.Wait?
    ensures BodyAt(Apply(s, a), t, g)
  {
    if s.frames[a.f].task.Some? { BodyOf(s, a.f); }
    hide Inv;
  }

  lemma BodyOf(s: State, f: nat)
    requires Inv(s) && f in s.frames && s.frames[f].task.Some?
    ensures s.frames[f].task.value in s.tasks && s.tasks[s.frames[f].task.value].place == Running(f)
  {
    assert FrameOk(s, f);
  }

  lemma DetachedDone(s: State, f: nat)
    requires Inv(s) && f in s.frames && s.frames[f].act.DetachFree?
    ensures s.frames[f].act.h in s.tasks && s.tasks[s.frames[f].act.h].done
  {
    assert FrameOk(s, f) && TaskOk(s, s.frames[f].act.h);
  }

  lemma HeldUpStays(s: State, a: Action, f: nat, g: nat)
    requires Inv(s) && Enabled(s, a) && HeldUpBy(s, f, g) && s.frames[g].act.Wait?
    ensures HeldUpBy(Apply(s, a), f, g)
  {
    HeldUpWaits(s, f, g);
    TighterStep(s, a, f);
    TighterStep(s, a, g);
    if s.frames[f].above != Some(g) {
      var t :| WaitsFor(s, f, t) && BodyAt(s, t, g);
      BodyStays(s, a, t, g);
    }
  }

  /** No step gets a trap's bodies out of it. */
  lemma TrapStays(s: State, a: Action, c: set<nat>)
    requires Inv(s) && Enabled(s, a) && Trap(s, c)
    ensures Trap(Apply(s, a), c)
  {
    hide Inv, Enabled, Apply, HeldUpBy;
    forall f | f in c ensures HeldUpIn(Apply(s, a), f, c) {
      assert HeldUpIn(s, f, c);
      var g :| g in c && HeldUpBy(s, f, g);
      assert HeldUpIn(s, g, c);
      var g' :| g' in c && HeldUpBy(s, g, g');
      HeldUpWaits(s, g, g');
      HeldUpStays(s, a, f, g);
    }
  }

  lemma {:induction false} TrapStaysAlong(s: State, run: seq<Action>, s': State, c: set<nat>)
    requires Inv(s) && Runs(s, run, s') && Trap(s, c)
    ensures Trap(s', c)
    decreases |run|
  {
    if run != [] {
      StepKeeps(s, run[0]);
      TrapStays(s, run[0], c);
      TrapStaysAlong(Apply(s, run[0]), run[1..], s', c);
    }
  }

  // ---------------------------------------------------------------- fork-join programs

  /** A body waits only for tasks spawned after it began. */
  predicate ForkJoin(a: Action) { a.StartWait? ==> forall h :: h in a.hs ==> a.f < h }

  predicate ForkJoinRun(run: seq<Action>) { forall i :: 0 <= i < |run| ==> ForkJoin(run[i]) }

  ghost predicate WaitsForLater(s: State) { forall f, t :: WaitsFor(s, f, t) ==> f < t }

  lemma ForkJoinStep(s: State, a: Action)
    requires Inv(s) && Enabled(s, a) && ForkJoin(a) && WaitsForLater(s)
    ensures WaitsForLater(Apply(s, a))
  {
    var s' := Apply(s, a);
    if a.StartWait? {
      assert a.hs[0..] == a.hs;
      forall f, t | WaitsFor(s', f, t) ensures f < t {
        assert f != a.f ==> WaitsFor(s, f, t);
      }
    } else {
      LooserStep(s, a);
      hide Inv, Enabled, Apply;
      forall f, t | WaitsFor(s', f, t) ensures f < t {
        assert s'.frames[f].act.Wait?;
        assert WaitsFor(s, f, t);
      }
    }
  }

  lemma {:induction false} ForkJoinKeeps(s: State, run: seq<Action>, s': State)
    requires Inv(s) && Runs(s, run, s') && ForkJoinRun(run) && WaitsForLater(s)
    ensures WaitsForLater(s')
    decreases |run|
  {
    if run != [] {
      StepKeeps(s, run[0]);
      ForkJoinStep(s, run[0]);
      ForkJoinKeeps(Apply(s, run[0]), run[1..], s');
    }
  }

  lemma {:induction false} Latest(c: set<nat>) returns (f: nat)
    requires c != {}
    ensures f in c && forall g :: g in c ==> g <= f
    decreases |c|
  {
    var some :| some in c;
    if c == {some} {
      f := some;
    } else {
      var g := Latest(c - {some});
      f := if g > some then g else some;
      forall h | h in c ensures h <= f {
        assert h == some || h in c - {some};
      }
    }
  }

  lemma HeldUpByLater(s: State, f: nat, g: nat)
    requires Inv(s) && WaitsForLater(s) && HeldUpBy(s, f, g)
    ensures f < g
  {
    assert FrameOk(s, f) && FrameOk(s, g);
    if s.frames[f].above != Some(g) {
      var t :| WaitsFor(s, f, t) && BodyAt(s, t, g);
      assert TaskOk(s, t);
    }
  }

  /** What holds a body up was started after it, so the body started last is held up by nothing. */
  lemma NoTrap(s: State)
    requires Inv(s) && WaitsForLater(s)
    ensures !Trapped(s)
  {
    hide Inv, HeldUpBy, WaitsForLater;
    if c :| Trap(s, c) {
      var f := Latest(c);
      assert HeldUpIn(s, f, c);
      var g :| g in c && HeldUpBy(s, f, g);
      HeldUpByLater(s, f, g);
    }
  }

  /** Handles a body has are of tasks spawned after it began. */
  predicate HasLater(s: State) { forall f, h :: f in s.frames && h in s.frames[f].owned ==> f < h }

  lemma HasLaterStep(s: State, a: Action)
    requires Inv(s) && Enabled(s, a) && HasLater(s) && !a.Take?
    ensures HasLater(Apply(s, a)) && ForkJoin(a)
  {
    if a.Spawn? { assert FrameOk(s, a.f); }
    hide Inv;
    if AwaitStep(a) {
      HasLaterAwait(s, a);
    } else if Pops(a) || EndStep(a) {
      HasLaterEnd(s, a);
    }
  }

  lemma HasLaterAwait(s: State, a: Action)
    requires Enabled(s, a) && HasLater(s) && AwaitStep(a)
    ensures HasLater(Apply(s, a))
  {
    if !a.ReapTask? {
      AwaitOnlyPc(s, a);
      hide Enabled, Apply;
    }
  }

  lemma HasLaterEnd(s: State, a: Action)
    requires Enabled(s, a) && HasLater(s) && (Pops(a) || EndStep(a))
    ensures HasLater(Apply(s, a))
  {
    if EndStep(a) {
      EndOnlyAct(s, a);
      hide Enabled, Apply;
    }
  }

  /** Bodies that pick up no handles others left, waiting only for tasks of their own, are fork-join. */
  lemma {:induction false} OwnTasksForkJoin(s: State, run: seq<Action>, s': State)
    requires Inv(s) && Runs(s, run, s') && HasLater(s) && forall i :: 0 <= i < |run| ==> !run[i].Take?
    ensures ForkJoinRun(run)
    decreases |run|
  {
    if run != [] {
      StepKeeps(s, run[0]);
      HasLaterStep(s, run[0]);
      OwnTasksForkJoin(Apply(s, run[0]), run[1..], s');
    }
  }

  /** No deadlock: in every state a fork-join program reaches with an unfinished task or a waiting body, a step that advances is enabled. */
  lemma NeverStuck(s0: State, run: seq<Action>, s: State) returns (a: Action)
    requires Init(s0) && Runs(s0, run, s) && ForkJoinRun(run)
    requires (exists t :: t in s.tasks && !s.tasks[t].done) || (exists f :: f in s.frames && s.frames[f].act.Wait?)
    ensures Enabled(s, a) && Advances(a)
  {
    InitOk(s0);
    RunKeeps(s0, run, s);
    ForkJoinKeeps(s0, run, s);
    NoTrap(s);
    if t :| t in s.tasks && !s.tasks[t].done {
      assert TaskOk(s, t);
    }
    a := Progress(s);
  }

  /** The same for bodies that wait only for tasks they spawned themselves. */
  lemma NeverStuckOnOwnTasks(s0: State, run: seq<Action>, s: State) returns (a: Action)
    requires Init(s0) && Runs(s0, run, s) && forall i :: 0 <= i < |run| ==> !run[i].Take?
    requires (exists t :: t in s.tasks && !s.tasks[t].done) || (exists f :: f in s.frames && s.frames[f].act.Wait?)
    ensures Enabled(s, a) && Advances(a)
  {
    InitOk(s0);
    OwnTasksForkJoin(s0, run, s);
    a := NeverStuck(s0, run, s);
  }

  // ---------------------------------------------------------------- only finitely many steps

  /** Steps a queued job can still account for. */
  function JobWeight(job: Job): nat { 40 * job.work + 15 }

  function PcWeight(pc: WaitPc): nat {
    match pc
    case Spin(again) => if again then 5 else 8
    case Looked => 7
    case Parked(passed) => if passed then 6 else 9
    case Saw => 4
    case Barrier(_) => 3
    case Reap(_) => 2
  }

  function ActWeight(act: Act): nat {
    match act
    case Run => 11
    case Wait(hs, i, _, pc) => (if i <= |hs| then 10 * (|hs| - i) else 0) + PcWeight(pc)
    case WantDetach(_) => 20
    case DetachLocked(_, _) => 19
    case DetachFree(_) => 18
    case End(_) => 9
    case EndLocked(_) => 8
    case EndFree => 7
  }

  function FrameWeight(fr: Frame): nat { 40 * fr.work + 10 * |fr.owned| + ActWeight(fr.act) }

  function Weight(frames: map<nat, Frame>, f: nat): nat { if f in frames then FrameWeight(frames[f]) else 0 }

  function FramesWeight(frames: map<nat, Frame>, k: nat): nat {
    if k == 0 then 0 else FramesWeight(frames, k - 1) + Weight(frames, k - 1)
  }

  function JobsWeight(queue: seq<Job>): nat {
    if queue == [] then 0 else JobWeight(queue[0]) + JobsWeight(queue[1..])
  }

  function QueuesWeight(queues: seq<seq<Job>>): nat {
    if queues == [] then 0 else JobsWeight(queues[0]) + QueuesWeight(queues[1..])
  }

  function Measure(s: State): nat { QueuesWeight(s.queues) + FramesWeight(s.frames, s.clock) + 10 * |s.pool| }

  lemma {:induction false} FramesWeightDiff(m: map<nat, Frame>, m': map<nat, Frame>, f: nat, k: nat)
    requires forall g: nat :: g < k && g != f ==> Weight(m', g) == Weight(m, g)
    ensures FramesWeight(m', k) == FramesWeight(m, k) + if f < k then Weight(m', f) - Weight(m, f) else 0
  {
    if k > 0 {
      assert k - 1 != f ==> Weight(m', k - 1) == Weight(m, k - 1);
      FramesWeightDiff(m, m', f, k - 1);
    }
  }

  lemma {:induction false} JobsWeightSplit(a: seq<Job>, b: seq<Job>)
    ensures JobsWeight(a + b) == JobsWeight(a) + JobsWeight(b)
  {
    if a == [] {
      assert a + b == b;
    } else {
      assert (a + b)[0] == a[0] && (a + b)[1..] == a[1..] + b;
      JobsWeightSplit(a[1..], b);
    }
  }

  lemma {:induction false} QueuesWeightUpdate(queues: seq<seq<Job>>, q: nat, queue: seq<Job>)
    requires q < |queues|
    ensures QueuesWeight(queues[q := queue]) == QueuesWeight(queues) - JobsWeight(queues[q]) + JobsWeight(queue)
  {
    if q > 0 {
      assert queues[q := queue][0] == queues[0] && queues[q := queue][1..] == queues[1..][q - 1 := queue];
      QueuesWeightUpdate(queues[1..], q - 1, queue);
    } else {
      assert queues[q := queue][1..] == queues[1..];
    }
  }

  lemma JobsWeightPush(queue: seq<Job>, front: bool, job: Job)
    ensures JobsWeight(PushJob(queue, front, job)) == JobsWeight(queue) + JobWeight(job)
  {
    if !front {
      JobsWeightSplit(queue, [job]);
      assert JobsWeight([job]) == JobWeight(job) + JobsWeight([]);
    } else {
      assert ([job] + queue)[1..] == queue;
    }
  }

  lemma JobsWeightTake(queue: seq<Job>, i: nat)
    requires i < |queue|
    ensures JobsWeight(queue[..i] + queue[i + 1..]) + JobWeight(queue[i]) == JobsWeight(queue)
  {
    assert queue == queue[..i] + queue[i..];
    JobsWeightSplit(queue[..i], queue[i..]);
    JobsWeightSplit(queue[..i], queue[i + 1..]);
    assert queue[i..][1..] == queue[i + 1..];
  }

  /** Starting a body is a step down: its job weighs more than its frame. */
  lemma StartedWeight(s: State, th: nat, below: Option<nat>, q: nat, i: nat)
    requires Inv(s) && q < |s.queues| && i < |s.queues[q]| && CanStart(s, th, below)
    ensures Measure(Started(s, th, below, q, i)) + 4 <= Measure(s)
  {
    var s' := Started(s, th, below, q, i);
    ClockFresh(s);
    JobsWeightTake(s.queues[q], i);
    QueuesWeightUpdate(s.queues, q, s.queues[q][..i] + s.queues[q][i + 1..]);
    FramesWeightDiff(s.frames, s'.frames, s.clock, s.clock);
  }

  lemma WorkerPopWeight(s: State, w: nat, q: nat)
    requires Inv(s) && CanWorkerPop(s, w, q)
    ensures Measure(DoWorkerPop(s, w, q)) < Measure(s)
  {
    var queue := s.queues[q];
    var i := if q == w then 0 else |queue| - 1;
    StartedWeight(s, w, None, q, i);
    if q == w {
      assert queue[..0] + queue[1..] == queue[1..];
    } else {
      assert queue[..i] + queue[i + 1..] == queue[..i];
    }
  }

  lemma SpawnWeight(s: State, f: nat, q: nat, front: bool, own: nat, child: nat)
    requires Inv(s) && CanSpawn(s, f, q, front, own, child)
    ensures Measure(DoSpawn(s, f, q, front, own, child)) < Measure(s)
  {
    var s' := DoSpawn(s, f, q, front, own, child);
    ClockFresh(s);
    assert FrameOk(s, f);
    JobsWeightPush(s.queues[q], front, Job(s.clock, child));
    QueuesWeightUpdate(s.queues, q, PushJob(s.queues[q], front, Job(s.clock, child)));
    FramesWeightDiff(s.frames, s'.frames, f, s.clock);
    assert Weight(s'.frames, s.clock) == 0;
  }

  lemma SubsetSize(a: set<nat>, b: set<nat>)
    requires b <= a
    ensures |a - b| == |a| - |b|
  {
    assert a == (a - b) + b;
  }

  lemma {:induction false} DistinctSize(hs: seq<nat>)
    requires Distinct(hs)
    ensures |Elems(hs)| == |hs|
  {
    if hs == [] {
      assert Elems(hs) == {};
    } else {
      var init, last := hs[..|hs| - 1], hs[|hs| - 1];
      DistinctSize(init);
      assert hs == init + [last];
      assert Elems(hs) == Elems(init) + {last} && last !in Elems(init);
    }
  }

  /** A step within one frame: the frame's weight is the measure's only change. */
  lemma FrameStepWeight(s: State, s': State, f: nat)
    requires Inv(s) && f in s.frames && s'.queues == s.queues && s'.clock == s.clock && s'.pool == s.pool
    requires forall g :: g != f ==> Weight(s'.frames, g) == Weight(s.frames, g)
    ensures Measure(s') == Measure(s) + Weight(s'.frames, f) - Weight(s.frames, f)
  {
    assert FrameOk(s, f);
    FramesWeightDiff(s.frames, s'.frames, f, s.clock);
  }

  lemma StartWaitWeight(s: State, f: nat, hs: seq<nat>)
    requires Inv(s) && CanStartWait(s, f, hs)
    ensures Measure(DoStartWait(s, f, hs)) < Measure(s)
  {
    FrameStepWeight(s, DoStartWait(s, f, hs), f);
    DistinctSize(hs);
    SubsetSize(s.frames[f].owned, Elems(hs));
  }

  lemma PopWeight(s: State, s1: State, f: nat)
    requires Inv(s) && f in s.frames && s1.frames == s.frames && s1.queues == s.queues && s1.clock == s.clock && s1.pool == s.pool
    ensures Measure(Pop(s1, f)) < Measure(s)
  {
    assert FrameOk(s, f);
    FrameStepWeight(s, Pop(s1, f), f);
  }

  lemma UnlockDoneWeight(s: State, f: nat)
    requires Inv(s) && CanUnlockDone(s, f)
    ensures Measure(DoUnlockDone(s, f)) < Measure(s)
  {
    var t := s.frames[f].task.value;
    if s.frames[f].act.freeHere {
      FrameStepWeight(s, DoUnlockDone(s, f), f);
    } else {
      PopWeight(s, SetTask(s, t, GetTask(s, t).(mtx := None, place := Finished)), f);
    }
  }

  lemma ReapWeight(s: State, f: nat, caught: bool)
    requires Inv(s) && CanReapTask(s, f, caught)
    ensures Measure(DoReapTask(s, f, caught)) < Measure(s)
  {
    FrameStepWeight(s, DoReapTask(s, f, caught), f);
  }

  /** From s to s', frame f's program counter moved, up by two if it parked and down otherwise. */
  ghost predicate MovesPc(s: State, s': State, f: nat, parks: bool) {
    && f in s.frames && f in s'.frames && s'.queues == s.queues && s'.clock == s.clock && s'.pool == s.pool
    && s'.frames == s.frames[f := s.frames[f].(act := s'.frames[f].act)]
    && if parks then ActWeight(s'.frames[f].act) == ActWeight(s.frames[f].act) + 2
       else ActWeight(s'.frames[f].act) < ActWeight(s.frames[f].act)
  }

  /** After wait_for has found the task done, looking again and finding it undone is not enabled: done stays true. */
  lemma AwaitStepMoves(s: State, a: Action)
    requires Inv(s) && Enabled(s, a) && AwaitStep(a) && !a.ReapTask?
    ensures MovesPc(s, Apply(s, a), a.f, a.Park?)
  {
    AwaitOnlyPc(s, a);
    if a.Look? { PassedDone(s, a.f); }
    AwaitPc(s, a);
    hide Inv, Enabled, Apply;
  }

  /** Where the program counter goes. */
  lemma AwaitPc(s: State, a: Action)
    requires Enabled(s, a) && AwaitStep(a) && !a.ReapTask? && (a.Look? ==> s.frames[a.f].act.pc == Spin(false))
    ensures PcWeight(Apply(s, a).frames[a.f].act.pc) < PcWeight(s.frames[a.f].act.pc) ||
            (a.Park? && PcWeight(Apply(s, a).frames[a.f].act.pc) == PcWeight(s.frames[a.f].act.pc) + 2)
    ensures a.Park? ==> PcWeight(Apply(s, a).frames[a.f].act.pc) == PcWeight(s.frames[a.f].act.pc) + 2
  {}

  lemma PassedDone(s: State, f: nat)
    requires Inv(s) && CanLook(s, f)
    ensures s.frames[f].act.pc == Spin(false)
  {
    assert FrameOk(s, f);
  }

  lemma EndStepMoves(s: State, a: Action)
    requires Enabled(s, a) && EndStep(a)
    ensures MovesPc(s, Apply(s, a), a.f, false)
  {}

  lemma MovesPcWeight(s: State, s': State, f: nat, parks: bool)
    requires Inv(s) && MovesPc(s, s', f, parks)
    ensures if parks then Measure(s') == Measure(s) + 2 else Measure(s') < Measure(s)
  {
    FrameStepWeight(s, s', f);
  }

  lemma HelpWeight(s: State, f: nat, q: nat)
    requires Inv(s) && CanHelp(s, f, q)
    ensures Measure(DoHelp(s, f, q)) < Measure(s)
  {
    var last := |s.queues[q]| - 1;
    assert s.queues[q][..last] + s.queues[q][last + 1..] == s.queues[q][..last];
    var s1 := SpinAgain(s, f);
    AgainKeeps(s, f);
    FrameStepWeight(s, s1, f);
    StartedWeight(s1, s.frames[f].th, Some(f), q, last);
  }

  lemma StartDetachWeight(s: State, f: nat, h: nat)
    requires Inv(s) && CanStartDetach(s, f, h)
    ensures Measure(DoStartDetach(s, f, h)) < Measure(s)
  {
    FrameStepWeight(s, DoStartDetach(s, f, h), f);
    SubsetSize(s.frames[f].owned, {h});
  }

  /** Handing over moves a handle's weight to or from the pool. */
  lemma HandOverWeight(s: State, a: Action)
    requires Inv(s) && Enabled(s, a) && (a.Share? || a.Take?)
    ensures Measure(Apply(s, a)) == Measure(s)
  {
    var s' := Apply(s, a);
    HandleOf(s, a);
    FrameStepWeight(s, s'.(pool := s.pool), a.f);
    hide Inv;
    if a.Share? {
      SubsetSize(s.frames[a.f].owned, {a.h});
    } else {
      SubsetSize(s.pool, {a.h});
    }
  }

  lemma HandleOf(s: State, a: Action)
    requires Inv(s) && Enabled(s, a) && (a.Share? || a.Take?)
    ensures if a.Share? then a.h !in s.pool else a.h !in s.frames[a.f].owned
  {
    assert FrameOk(s, a.f) && a.h in s.tasks;
    assert TaskOk(s, a.h);
  }

  /** Steps that advance make the measure smaller, parking makes it larger by two, and handing over keeps it. */
  lemma StepWeight(s: State, a: Action)
    requires Inv(s) && Enabled(s, a)
    ensures Advances(a) ==> Measure(Apply(s, a)) < Measure(s)
    ensures !Advances(a) ==> Measure(Apply(s, a)) == Measure(s) + if a.Park? then 2 else 0
  {
    hide Inv, Measure, MovesPc;
    match a
    case Spawn(f, q, front, own, child) => SpawnWeight(s, f, q, front, own, child);
    case Share(f, h) => HandOverWeight(s, a);
    case Take(f, h) => HandOverWeight(s, a);
    case StartWait(f, hs) => StartWaitWeight(s, f, hs);
    case Help(f, q) => HelpWeight(s, f, q);
    case WorkerPop(w, q) => WorkerPopWeight(s, w, q);
    case StartDetach(f, h) => StartDetachWeight(s, f, h);
    case ReapTask(f, caught) => ReapWeight(s, f, caught);
    case UnlockDone(f) => UnlockDoneWeight(s, f);
    case FreeDone(f) => PopWeight(s, Free(s, s.frames[f].task.value), f);
    case RootExit(f) => PopWeight(s, s, f);
    case _ =>
      if AwaitStep(a) {
        AwaitStepMoves(s, a);
      } else {
        EndStepMoves(s, a);
      }
      MovesPcWeight(s, Apply(s, a), a.f, a.Park?);
  }

  function Parks(run: seq<Action>): nat {
    if run == [] then 0 else (if run[0].Park? then 1 else 0) + Parks(run[1..])
  }

  function HandOvers(run: seq<Action>): nat {
    if run == [] then 0 else (if run[0].Share? || run[0].Take? then 1 else 0) + HandOvers(run[1..])
  }

  /** Every run is finite but for parking and handing over: its other steps are bounded by its parks and the state it began in. */
  lemma {:induction false} RunBounded(s: State, run: seq<Action>, s': State)
    requires Inv(s) && Runs(s, run, s')
    ensures |run| - Parks(run) - HandOvers(run) + Measure(s') <= Measure(s) + 2 * Parks(run)
    decreases |run|
  {
    if run != [] {
      StepKeeps(s, run[0]);
      StepWeight(s, run[0]);
      RunBounded(Apply(s, run[0]), run[1..], s');
    }
  }

  /** From every state without a trap the run can be completed without parking at all. */
  lemma {:induction false} ComesToRest(s: State) returns (run: seq<Action>, s': State)
    requires Inv(s) && !Trapped(s)
    ensures Runs(s, run, s') && Quiescent(s') && Parks(run) == 0 && |run| <= Measure(s)
    decreases Measure(s)
  {
    if Quiescent(s) {
      run, s' := [], s;
    } else {
      var a := Progress(s);
      StepKeeps(s, a);
      StepWeight(s, a);
      StaysFree(s, a);
      var rest, end := ComesToRest(Apply(s, a));
      run, s' := [a] + rest, end;
      assert run[1..] == rest;
    }
  }

  lemma NotAtRest(s: State, c: set<nat>)
    requires Trap(s, c)
    ensures !Quiescent(s)
  {
    var f :| f in c;
    assert HeldUpIn(s, f, c);
  }

  /** A state can be completed if and only if it is not trapped. */
  lemma CompletesExactly(s: State)
    requires Inv(s)
    ensures (exists run, s' :: Runs(s, run, s') && Quiescent(s')) <==> !Trapped(s)
  {
    hide Inv, Enabled, Apply, Runs, Trap, Quiescent;
    if !Trapped(s) {
      var run, s' := ComesToRest(s);
      assert Runs(s, run, s') && Quiescent(s');
    }
    if c :| Trap(s, c) {
      forall run, s' | Runs(s, run, s') ensures !Quiescent(s') {
        TrapStaysAlong(s, run, s', c);
        NotAtRest(s', c);
      }
    }
  }

  /** A fork-join program can be completed from every state it reaches. */
  lemma ForkJoinCompletes(s0: State, run: seq<Action>, s: State) returns (rest: seq<Action>, s': State)
    requires Init(s0) && Runs(s0, run, s) && ForkJoinRun(run)
    ensures Runs(s, rest, s') && Quiescent(s') && Parks(rest) == 0
  {
    InitOk(s0);
    RunKeeps(s0, run, s);
    ForkJoinKeeps(s0, run, s);
    NoTrap(s);
    rest, s' := ComesToRest(s);
  }

  lemma RunsNone(s: State)
    ensures Runs(s, [], s)
  {}

  lemma RunsStep(s: State, a: Action, run: seq<Action>, s': State)
    requires Enabled(s, a) && Runs(Apply(s, a), run, s')
    ensures Runs(s, [a] + run, s')
  {
    assert ([a] + run)[1..] == run;
  }

  /** One worker and one thread outside the pool, about to run a body that spawns task 1; and the four states after that. */
  function Sample(k: nat): State
    requires k <= 5
  {
    var root := Frame(1, None, None, None, {}, if k == 0 then 1 else 0, Run);
    var body := Frame(0, Some(1), None, None, {}, 0, Run);
    var task := Task(false, false, None, None, Queued(0), Held(0));
    match k
    case 0 => State([[]], map[], map[0 := root], 1, {}, {}, multiset{}, {}, map[])
    case 1 => State([[Job(1, 0)]], map[1 := task], map[0 := root.(owned := {1})], 2, {}, {1}, multiset{}, {}, map[])
    case 2 => State([[Job(1, 0)]], map[1 := task.(holder := Shared)], map[0 := root], 2, {1}, {1}, multiset{}, {}, map[])
    case 3 => State([[]], map[1 := task.(holder := Shared, place := Running(2))], map[0 := root, 2 := body], 3, {1}, {1}, multiset{}, {}, map[])
    case 4 => State([[]], map[1 := task.(holder := Held(2), place := Running(2))], map[0 := root, 2 := body.(owned := {1})], 3, {}, {1}, multiset{}, {}, map[])
    case _ => State([[]], map[1 := task.(holder := Held(2), place := Running(2))], map[0 := root, 2 := body.(act := Wait([1], 0, None, Spin(false)))], 3, {}, {1}, multiset{}, {}, map[])
  }

  /** The same state, part by part. */
  lemma SameState(a: State, b: State)
    requires |a.queues| == |b.queues| && forall q :: 0 <= q < |a.queues| ==> a.queues[q] == b.queues[q]
    requires forall t {:trigger a.tasks[t]} {:trigger b.tasks[t]} :: (t in a.tasks <==> t in b.tasks) && (t in a.tasks ==> a.tasks[t] == b.tasks[t])
    requires forall f {:trigger a.frames[f]} {:trigger b.frames[f]} :: (f in a.frames <==> f in b.frames) && (f in a.frames ==> a.frames[f] == b.frames[f])
    requires a.clock == b.clock && a.pool == b.pool && a.made == b.made && a.freed == b.freed && a.leaked == b.leaked && a.ended == b.ended
    ensures a == b
  {
    assert a.queues == b.queues;
    assert a.tasks == b.tasks;
    assert a.frames == b.frames;
  }

  lemma SampleStep0()
    ensures Enabled(Sample(0), Spawn(0, 0, false, 0, 0)) && Apply(Sample(0), Spawn(0, 0, false, 0, 0)) == Sample(1)
  {
    var none: set<nat> := {};
    assert none + {1} == {1} && {1} - {1} == none;
    var empty: seq<Job> := [];
    assert empty + [Job(1, 0)] == [Job(1, 0)];
    SameState(Apply(Sample(0), Spawn(0, 0, false, 0, 0)), Sample(1));
  }

  lemma SampleStep1()
    ensures Enabled(Sample(1), Share(0, 1)) && Apply(Sample(1), Share(0, 1)) == Sample(2)
  {
    var none: set<nat> := {};
    assert none + {1} == {1} && {1} - {1} == none;
    SameState(Apply(Sample(1), Share(0, 1)), Sample(2));
  }

  lemma SampleStep2()
    ensures Enabled(Sample(2), WorkerPop(0, 0)) && Apply(Sample(2), WorkerPop(0, 0)) == Sample(3)
  {
    assert [Job(1, 0)][1..] == [];
    SameState(Apply(Sample(2), WorkerPop(0, 0)), Sample(3));
  }

  lemma SampleStep3()
    ensures Enabled(Sample(3), Take(2, 1)) && Apply(Sample(3), Take(2, 1)) == Sample(4)
  {
    var none: set<nat> := {};
    assert none + {1} == {1} && {1} - {1} == none;
    SameState(Apply(Sample(3), Take(2, 1)), Sample(4));
  }

  lemma SampleStep4()
    ensures Enabled(Sample(4), StartWait(2, [1])) && Apply(Sample(4), StartWait(2, [1])) == Sample(5)
  {
    assert [1][0] == 1 && Elems([1]) == {1};
    var none: set<nat> := {};
    assert none + {1} == {1} && {1} - {1} == none;
    SameState(Apply(Sample(4), StartWait(2, [1])), Sample(5));
  }

  /** A body that picks up the handle of its own task and waits for it is trapped: a run in which a wait is out of order need not complete. */
  lemma SelfWaitTraps() returns (run: seq<Action>)
    ensures Init(Sample(0)) && Runs(Sample(0), run, Sample(5)) && Trapped(Sample(5)) && !ForkJoinRun(run)
  {
    SampleTrapped();
    SampleStep0();
    SampleStep1();
    SampleStep2();
    SampleStep3();
    SampleStep4();
    SampleInit();
    RunsNone(Sample(5));
    hide Enabled, Apply, Sample, Trapped, Init, Runs;
    var tail := [WorkerPop(0, 0), Take(2, 1), StartWait(2, [1])];
    RunsStep(Sample(4), StartWait(2, [1]), [], Sample(5));
    RunsStep(Sample(3), Take(2, 1), [StartWait(2, [1])], Sample(5));
    RunsStep(Sample(2), WorkerPop(0, 0), [Take(2, 1), StartWait(2, [1])], Sample(5));
    RunsStep(Sample(1), Share(0, 1), tail, Sample(5));
    RunsStep(Sample(0), Spawn(0, 0, false, 0, 0), [Share(0, 1)] + tail, Sample(5));
    run := [Spawn(0, 0, false, 0, 0)] + ([Share(0, 1)] + tail);
    assert !ForkJoin(run[4]) by { assert run[4] == StartWait(2, [1]) && 1 in [1]; }
  }

  lemma SampleInit()
    ensures Init(Sample(0))
  {}

  lemma SampleTrapped()
    ensures Trapped(Sample(5))
  {
    var s := Sample(5);
    assert [1][0..] == [1];
    assert WaitsFor(s, 2, 1) && BodyAt(s, 1, 2);
    assert HeldUpBy(s, 2, 2);
    assert HeldUpIn(s, 2, {2});
    assert Trap(s, {2});
  }
}
