/** Turning a pipeline stage's calls into tasks spawned together at the first call's place and joined before anything that follows. */
module StageSpawn {

  type Id = nat

  datatype Arg = Const(value: int) | Ref(id: Id)

  /** A spawned call: its function, the values stored in its argument record, and its result buffer. */
  datatype Task = Task(buffer: Id, callee: nat, args: seq<Arg>)

  /** Straight-line single-assignment code over pure operations; result buffers share the value names. */
  datatype Op =
    | Pure(dst: Id, fn: seq<int> -> int, args: seq<Arg>)
    | Call(dst: Id, callee: nat, args: seq<Arg>)
    | SpawnAwait(tasks: seq<Task>)
    | LoadResult(dst: Id, buffer: Id)

  type Env = map<Id, int>

  /** What the functions compute, and in which order the tasks of a stage run. */
  datatype World = World(interp: (nat, seq<int>) -> int, order: seq<Task> -> seq<nat>)

  function Value(a: Arg, env: Env): int {
    match a
    case Const(v) => v
    case Ref(r) => if r in env then env[r] else 0
  }

  function Values(args: seq<Arg>, env: Env): (vs: seq<int>)
    ensures |vs| == |args|
  {
    seq(|args|, k requires 0 <= k < |args| => Value(args[k], env))
  }

  /** Each task of the order reads its record, filled from `entry` before any task ran, and writes its buffer. */
  function RunTasks(tasks: seq<Task>, entry: Env, env: Env, order: seq<nat>, w: World): Env {
    if order == [] then env
    else
      var before := RunTasks(tasks, entry, env, order[..|order| - 1], w);
      var i := order[|order| - 1];
      if i < |tasks| then before[tasks[i].buffer := w.interp(tasks[i].callee, Values(tasks[i].args, entry))] else before
  }

  /** Await-all returns only when every task has run. */
  ghost predicate Joins(w: World) {
    forall tasks, i {:trigger tasks[i], w.order(tasks)} :: 0 <= i < |tasks| ==> i in w.order(tasks)
  }

  function Step(op: Op, env: Env, w: World): Env {
    match op
    case Pure(d, fn, args) => env[d := fn(Values(args, env))]
    case Call(d, f, args) => env[d := w.interp(f, Values(args, env))]
    case SpawnAwait(tasks) => RunTasks(tasks, env, env, w.order(tasks), w)
    case LoadResult(d, b) => env[d := Value(Ref(b), env)]
  }

  function Exec(ops: seq<Op>, env: Env, w: World): Env {
    if ops == [] then env else Step(ops[|ops| - 1], Exec(ops[..|ops| - 1], env, w), w)
  }

  lemma {:induction false} ExecCompose(a: seq<Op>, b: seq<Op>, env: Env, w: World)
    ensures Exec(a + b, env, w) == Exec(b, Exec(a, env, w), w)
  {
    hide Step;
    if b == [] {
      assert a + b == a;
    } else {
      assert (a + b)[..|a + b| - 1] == a + b[..|b| - 1];
      ExecCompose(a, b[..|b| - 1], env, w);
    }
  }

  // ---------------------------------------------------------------- well-formed code

  function Buffers(tasks: seq<Task>): (s: set<Id>)
    ensures forall b :: b in s <==> exists i :: 0 <= i < |tasks| && tasks[i].buffer == b
  {
    if tasks == [] then {} else Buffers(tasks[..|tasks| - 1]) + {tasks[|tasks| - 1].buffer}
  }

  function Defs(op: Op): set<Id> {
    match op
    case SpawnAwait(tasks) => Buffers(tasks)
    case _ => {op.dst}
  }

  function DefsOf(ops: seq<Op>): set<Id> {
    if ops == [] then {} else DefsOf(ops[..|ops| - 1]) + Defs(ops[|ops| - 1])
  }

  predicate Known(args: seq<Arg>, known: set<Id>) {
    forall k :: 0 <= k < |args| && args[k].Ref? ==> args[k].id in known
  }

  predicate OpOk(op: Op, known: set<Id>) {
    && Defs(op) !! known
    && match op
       case Pure(_, _, args) => Known(args, known)
       case Call(_, _, args) => Known(args, known)
       case SpawnAwait(tasks) =>
         && (forall i :: 0 <= i < |tasks| ==> Known(tasks[i].args, known))
         && (forall i, j :: 0 <= i < j < |tasks| ==> tasks[i].buffer != tasks[j].buffer)
       case LoadResult(_, b) => b in known
  }

  /** Every value is defined once, and before it is used. */
  predicate CodeOk(ops: seq<Op>, known: set<Id>) {
    ops != [] ==> CodeOk(ops[..|ops| - 1], known) && OpOk(ops[|ops| - 1], known + DefsOf(ops[..|ops| - 1]))
  }

  lemma {:induction false} DefsConcat(a: seq<Op>, b: seq<Op>)
    ensures DefsOf(a + b) == DefsOf(a) + DefsOf(b)
  {
    if b == [] {
      assert a + b == a;
    } else {
      assert (a + b)[..|a + b| - 1] == a + b[..|b| - 1];
      DefsConcat(a, b[..|b| - 1]);
    }
  }

  lemma {:induction false} CodeConcat(a: seq<Op>, b: seq<Op>, known: set<Id>)
    ensures CodeOk(a + b, known) <==> CodeOk(a, known) && CodeOk(b, known + DefsOf(a))
  {
    hide OpOk;
    if b == [] {
      assert a + b == a;
    } else {
      assert (a + b)[..|a + b| - 1] == a + b[..|b| - 1];
      CodeConcat(a, b[..|b| - 1], known);
      DefsConcat(a, b[..|b| - 1]);
      assert known + DefsOf(a + b[..|b| - 1]) == known + DefsOf(a) + DefsOf(b[..|b| - 1]);
    }
  }

  lemma {:induction false} RunTasksKeys(tasks: seq<Task>, entry: Env, env: Env, order: seq<nat>, w: World)
    ensures env.Keys <= RunTasks(tasks, entry, env, order, w).Keys <= env.Keys + Buffers(tasks)
    ensures forall r :: r in env && r !in Buffers(tasks) ==> RunTasks(tasks, entry, env, order, w)[r] == env[r]
  {
    if order != [] { RunTasksKeys(tasks, entry, env, order[..|order| - 1], w); }
  }

  /** Whatever the order, a task that runs leaves its result in its buffer. */
  lemma {:induction false} RunTasksResult(tasks: seq<Task>, entry: Env, env: Env, order: seq<nat>, w: World, i: nat)
    requires i < |tasks| && i in order
    requires forall i, j :: 0 <= i < j < |tasks| ==> tasks[i].buffer != tasks[j].buffer
    ensures tasks[i].buffer in RunTasks(tasks, entry, env, order, w)
    ensures RunTasks(tasks, entry, env, order, w)[tasks[i].buffer] == w.interp(tasks[i].callee, Values(tasks[i].args, entry))
  {
    var last := order[|order| - 1];
    if last != i {
      assert i in order[..|order| - 1];
      RunTasksResult(tasks, entry, env, order[..|order| - 1], w, i);
    }
  }

  /** Running code adds its definitions and keeps what was there. */
  lemma StepGrows(op: Op, env: Env, w: World)
    requires OpOk(op, env.Keys) && Joins(w)
    ensures Step(op, env, w).Keys == env.Keys + Defs(op)
    ensures forall r :: r in env ==> Step(op, env, w)[r] == env[r]
  {
    if op.SpawnAwait? {
      RunTasksKeys(op.tasks, env, env, w.order(op.tasks), w);
      forall b | b in Buffers(op.tasks) ensures b in Step(op, env, w) {
        var i :| 0 <= i < |op.tasks| && op.tasks[i].buffer == b;
        RunTasksResult(op.tasks, env, env, w.order(op.tasks), w, i);
      }
    }
  }

  lemma {:induction false} ExecGrows(ops: seq<Op>, env: Env, w: World)
    requires CodeOk(ops, env.Keys) && Joins(w)
    ensures Exec(ops, env, w).Keys == env.Keys + DefsOf(ops)
    ensures forall r :: r in env ==> r in Exec(ops, env, w) && Exec(ops, env, w)[r] == env[r]
  {
    hide OpOk, Step, Joins;
    if ops != [] {
      ExecGrows(ops[..|ops| - 1], env, w);
      StepGrows(ops[|ops| - 1], Exec(ops[..|ops| - 1], env, w), w);
    }
  }

  lemma KnownValues(args: seq<Arg>, env: Env, env': Env)
    requires Known(args, env.Keys) && forall r :: r in env ==> r in env' && env'[r] == env[r]
    ensures Values(args, env') == Values(args, env)
  {
    forall k | 0 <= k < |args| ensures Value(args[k], env') == Value(args[k], env) {}
  }

  // ---------------------------------------------------------------- the rewrite of one stage

  /** A function body with names below `next`, and its return operand. */
  datatype Body = Body(ops: seq<Op>, result: Arg, next: Id)

  predicate IsTarget(op: Op, candidates: set<nat>) { op.Call? && op.callee in candidates }

  /** The calls of the stage, in order. */
  function Targets(ops: seq<Op>, candidates: set<nat>): seq<Op> {
    if ops == [] then []
    else Targets(ops[..|ops| - 1], candidates) + (if IsTarget(ops[|ops| - 1], candidates) then [ops[|ops| - 1]] else [])
  }

  /** Position of the first call of the stage, or the length. */
  function First(ops: seq<Op>, candidates: set<nat>): (k: nat)
    ensures k <= |ops| && (k < |ops| ==> IsTarget(ops[k], candidates))
    ensures forall j :: 0 <= j < k ==> !IsTarget(ops[j], candidates)
  {
    if ops == [] then 0
    else
      var k := First(ops[..|ops| - 1], candidates);
      if k < |ops| - 1 || IsTarget(ops[|ops| - 1], candidates) then k else |ops|
  }

  /** Fresh names for the buffer and the reloaded result of the call that defined d. */
  function BufferOf(next: Id, d: Id): Id { next + d }

  function LoadOf(next: Id, d: Id): Id { 2 * next + d }

  /** Uses of a replaced call's result become uses of the load. */
  function Rename(a: Arg, next: Id, gone: set<Id>): Arg {
    if a.Ref? && a.id in gone then Ref(LoadOf(next, a.id)) else a
  }

  function RenameArgs(args: seq<Arg>, next: Id, gone: set<Id>): (r: seq<Arg>)
    ensures |r| == |args|
  {
    seq(|args|, k requires 0 <= k < |args| => Rename(args[k], next, gone))
  }

  function RenameTasks(tasks: seq<Task>, next: Id, gone: set<Id>): (r: seq<Task>)
    ensures |r| == |tasks|
  {
    seq(|tasks|, i requires 0 <= i < |tasks| => Task(tasks[i].buffer, tasks[i].callee, RenameArgs(tasks[i].args, next, gone)))
  }

  function RenameOp(op: Op, next: Id, gone: set<Id>): Op {
    match op
    case Pure(d, fn, args) => Pure(d, fn, RenameArgs(args, next, gone))
    case Call(d, f, args) => Call(d, f, RenameArgs(args, next, gone))
    case SpawnAwait(tasks) => SpawnAwait(RenameTasks(tasks, next, gone))
    case LoadResult(d, b) => LoadResult(d, if b in gone then LoadOf(next, b) else b)
  }

  /** The code after the join: calls of the stage erased, uses of their results renamed. */
  function Rest(ops: seq<Op>, candidates: set<nat>, next: Id, gone: set<Id>): seq<Op> {
    if ops == [] then []
    else Rest(ops[..|ops| - 1], candidates, next, gone) + (if IsTarget(ops[|ops| - 1], candidates) then [] else [RenameOp(ops[|ops| - 1], next, gone)])
  }

  function TasksFor(targets: seq<Op>, next: Id): (r: seq<Task>)
    requires forall i :: 0 <= i < |targets| ==> targets[i].Call?
    ensures |r| == |targets|
  {
    seq(|targets|, i requires 0 <= i < |targets| => Task(BufferOf(next, targets[i].dst), targets[i].callee, targets[i].args))
  }

  function LoadsFor(targets: seq<Op>, next: Id): (r: seq<Op>)
    requires forall i :: 0 <= i < |targets| ==> targets[i].Call?
    ensures |r| == |targets|
  {
    seq(|targets|, i requires 0 <= i < |targets| => LoadResult(LoadOf(next, targets[i].dst), BufferOf(next, targets[i].dst)))
  }

  lemma {:induction false} TargetsAreCalls(ops: seq<Op>, candidates: set<nat>)
    ensures forall i :: 0 <= i < |Targets(ops, candidates)| ==> IsTarget(Targets(ops, candidates)[i], candidates)
  {
    if ops != [] { TargetsAreCalls(ops[..|ops| - 1], candidates); }
  }

  /** The code with the stage's calls spawned and joined where the first of them was. */
  function Spawned(b: Body, candidates: set<nat>): Body {
    TargetsAreCalls(b.ops, candidates);
    var k, targets := First(b.ops, candidates), Targets(b.ops, candidates);
    var gone := DefsOf(targets);
    Body(b.ops[..k] + [SpawnAwait(TasksFor(targets, b.next))] + LoadsFor(targets, b.next) + Rest(b.ops[k..], candidates, b.next, gone),
         Rename(b.result, b.next, gone),
         3 * b.next)
  }

  /** The precondition the pass checks: every operand of every call of the stage is available at the first. */
  predicate OperandsAvailable(b: Body, params: set<Id>, candidates: set<nat>) {
    var k, targets := First(b.ops, candidates), Targets(b.ops, candidates);
    TargetsAreCalls(b.ops, candidates);
    forall i :: 0 <= i < |targets| ==> Known(targets[i].args, params + DefsOf(b.ops[..k]))
  }

  function RewriteStage(b: Body, params: set<Id>, candidates: set<nat>): Body {
    if Targets(b.ops, candidates) != [] && OperandsAvailable(b, params, candidates) then Spawned(b, candidates) else b
  }

  function RewriteStages(b: Body, params: set<Id>, stages: seq<set<nat>>): Body {
    if stages == [] then b else RewriteStage(RewriteStages(b, params, stages[..|stages| - 1]), params, stages[|stages| - 1])
  }

  ghost predicate BodyOk(b: Body, params: set<Id>) {
    && CodeOk(b.ops, params)
    && (forall r :: r in params || r in DefsOf(b.ops) ==> r < b.next)
    && (b.result.Ref? ==> b.result.id in params + DefsOf(b.ops))
  }

  function Result(b: Body, env: Env, w: World): int { Value(b.result, Exec(b.ops, env, w)) }

  // ---------------------------------------------------------------- the code after the join

  /** Original values against rewritten ones: replaced results live on in their loads. */
  ghost predicate Agree(e: Env, e': Env, next: Id, gone: set<Id>) {
    forall r {:trigger r in e} :: r in e ==> var r' := if r in gone then LoadOf(next, r) else r; r' in e' && e'[r'] == e[r]
  }

  /** e' already holds the results of all calls of the stage in ops, computed from operands known in e. */
  ghost predicate Ready(ops: seq<Op>, candidates: set<nat>, e: Env, e': Env, next: Id, gone: set<Id>, w: World) {
    forall i {:trigger ops[i]} :: 0 <= i < |ops| ==> OpReady(ops[i], candidates, e, e', next, gone, w)
  }

  ghost predicate OpReady(op: Op, candidates: set<nat>, e: Env, e': Env, next: Id, gone: set<Id>, w: World) {
    && (forall r :: r in Defs(op) ==> r < next)
    && if IsTarget(op, candidates) then
         && op.dst in gone && Known(op.args, e.Keys)
         && LoadOf(next, op.dst) in e' && e'[LoadOf(next, op.dst)] == w.interp(op.callee, Values(op.args, e))
       else
         Defs(op) !! gone
  }

  lemma RenamedValues(args: seq<Arg>, e: Env, e': Env, next: Id, gone: set<Id>)
    requires Agree(e, e', next, gone) && Known(args, e.Keys)
    ensures Values(RenameArgs(args, next, gone), e') == Values(args, e)
  {
    forall k | 0 <= k < |args| ensures Value(RenameArgs(args, next, gone)[k], e') == Value(args[k], e) {}
  }

  /** A step touches its definitions only. */
  lemma StepFrame(op: Op, env: Env, w: World)
    ensures forall r :: r in env && r !in Defs(op) ==> r in Step(op, env, w) && Step(op, env, w)[r] == env[r]
  {
    if op.SpawnAwait? { RunTasksKeys(op.tasks, env, env, w.order(op.tasks), w); }
  }

  lemma RenamedBuffers(tasks: seq<Task>, next: Id, gone: set<Id>)
    ensures Buffers(RenameTasks(tasks, next, gone)) == Buffers(tasks)
  {
    forall b | b in Buffers(tasks) ensures b in Buffers(RenameTasks(tasks, next, gone)) {
      var i :| 0 <= i < |tasks| && tasks[i].buffer == b;
      assert RenameTasks(tasks, next, gone)[i].buffer == b;
    }
  }

  /** Renamed tasks leave the same results in the same buffers, even if they run in another order. */
  lemma RenamedTasks(tasks: seq<Task>, e: Env, e': Env, next: Id, gone: set<Id>, w: World, i: nat)
    requires Agree(e, e', next, gone) && Joins(w) && OpOk(SpawnAwait(tasks), e.Keys) && i < |tasks|
    ensures
      var op := SpawnAwait(tasks);
      var b := tasks[i].buffer;
      var s, s' := Step(op, e, w), Step(RenameOp(op, next, gone), e', w);
      b in s && b in s' && s[b] == s'[b]
  {
    hide RunTasks;
    var tasks' := RenameTasks(tasks, next, gone);
    assert tasks'[i].buffer == tasks[i].buffer;
    forall a, b | 0 <= a < b < |tasks'| ensures tasks'[a].buffer != tasks'[b].buffer {
      assert tasks[a].buffer != tasks[b].buffer;
    }
    RunTasksResult(tasks, e, e, w.order(tasks), w, i);
    RunTasksResult(tasks', e', e', w.order(tasks'), w, i);
    RenamedValues(tasks[i].args, e, e', next, gone);
  }

  /** An operation that stays computes the same. */
  lemma StepAgrees(op: Op, e: Env, e': Env, next: Id, gone: set<Id>, w: World)
    requires Agree(e, e', next, gone) && Joins(w) && OpOk(op, e.Keys) && Defs(op) !! gone
    requires (forall r :: r in e.Keys || r in Defs(op) ==> r < next)
    ensures Agree(Step(op, e, w), Step(RenameOp(op, next, gone), e', w), next, gone)
    ensures Defs(RenameOp(op, next, gone)) == Defs(op)
  {
    var op' := RenameOp(op, next, gone);
    var s, s' := Step(op, e, w), Step(op', e', w);
    StepGrows(op, e, w);
    match op {
      case Pure(_, _, args) => RenamedValues(args, e, e', next, gone);
      case Call(_, _, args) => RenamedValues(args, e, e', next, gone);
      case SpawnAwait(tasks) => RenamedBuffers(tasks, next, gone);
      case LoadResult(_, _) =>
    }
    StepFrame(op', e', w);
    forall r {:trigger r in s} | r in s ensures var r' := if r in gone then LoadOf(next, r) else r; r' in s' && s'[r'] == s[r] {
      if r in Defs(op) {
        if op.SpawnAwait? {
          var i :| 0 <= i < |op.tasks| && op.tasks[i].buffer == r;
          RenamedTasks(op.tasks, e, e', next, gone, w, i);
        }
      } else {
        assert r in e;
      }
    }
  }

  /** m still holds what e' holds under fresh names. */
  ghost predicate FreshKept(e': Env, m: Env, next: Id) {
    forall r {:trigger r in m} :: r >= next && r in e' ==> r in m && m[r] == e'[r]
  }

  ghost predicate Below(e: Env, next: Id) { forall r {:trigger r in e} :: r in e ==> r < next }

  /** A call of the stage, erased in the rewritten code: its result is already under its load's name. */
  lemma ErasedAgrees(op: Op, candidates: set<nat>, e: Env, e': Env, m: Env, m': Env, next: Id, gone: set<Id>, w: World)
    requires IsTarget(op, candidates) && OpReady(op, candidates, e, e', next, gone, w)
    requires Agree(m, m', next, gone) && FreshKept(e', m', next) && Below(m, next)
    requires forall r :: r in e ==> r in m && m[r] == e[r]
    ensures Agree(Step(op, m, w), m', next, gone)
  {
    KnownValues(op.args, e, m);
  }

  lemma KeptStep(op: Op, e': Env, m': Env, next: Id, w: World)
    requires FreshKept(e', m', next) && forall r :: r in Defs(op) ==> r < next
    ensures FreshKept(e', Step(op, m', w), next)
  {
    StepFrame(op, m', w);
  }

  lemma BelowStep(op: Op, m: Env, next: Id, w: World)
    requires OpOk(op, m.Keys) && Joins(w) && Below(m, next) && forall r :: r in Defs(op) ==> r < next
    ensures Below(Step(op, m, w), next)
  {
    StepGrows(op, m, w);
  }

  lemma RestLast(ops: seq<Op>, candidates: set<nat>, next: Id, gone: set<Id>, e': Env, w: World)
    requires ops != []
    ensures
      var op, m' := ops[|ops| - 1], Exec(Rest(ops[..|ops| - 1], candidates, next, gone), e', w);
      Exec(Rest(ops, candidates, next, gone), e', w) == if IsTarget(op, candidates) then m' else Step(RenameOp(op, next, gone), m', w)
  {
    hide Step, RenameOp;
    var rest, op := Rest(ops[..|ops| - 1], candidates, next, gone), ops[|ops| - 1];
    if IsTarget(op, candidates) {
      assert rest + [] == rest;
    } else {
      assert (rest + [RenameOp(op, next, gone)])[..|rest|] == rest;
    }
  }

  lemma TailStep(op: Op, candidates: set<nat>, e: Env, e': Env, m: Env, m': Env, next: Id, gone: set<Id>, w: World)
    requires OpReady(op, candidates, e, e', next, gone, w)
    requires Joins(w) && OpOk(op, m.Keys) && Below(m, next)
    requires Agree(m, m', next, gone) && FreshKept(e', m', next) && forall r :: r in e ==> r in m && m[r] == e[r]
    ensures
      var s' := if IsTarget(op, candidates) then m' else Step(RenameOp(op, next, gone), m', w);
      Agree(Step(op, m, w), s', next, gone) && FreshKept(e', s', next) && Below(Step(op, m, w), next)
  {
    hide OpOk, Joins, Known, Values, Agree, FreshKept, Step, RenameOp, Below, OpReady;
    ReadyDefs(op, candidates, e, e', next, gone, w);
    BelowStep(op, m, next, w);
    if IsTarget(op, candidates) {
      ErasedAgrees(op, candidates, e, e', m, m', next, gone, w);
    } else {
      BelowAll(m, next);
      StepAgrees(op, m, m', next, gone, w);
      KeptStep(RenameOp(op, next, gone), e', m', next, w);
    }
  }

  /** The original tail and the rewritten one agree, and the loads stay as they are. */
  lemma {:induction false} TailAgrees(ops: seq<Op>, candidates: set<nat>, e: Env, e': Env, next: Id, gone: set<Id>, w: World)
    requires CodeOk(ops, e.Keys) && Joins(w) && Agree(e, e', next, gone) && Ready(ops, candidates, e, e', next, gone, w)
    requires Below(e, next)
    ensures Agree(Exec(ops, e, w), Exec(Rest(ops, candidates, next, gone), e', w), next, gone)
    ensures FreshKept(e', Exec(Rest(ops, candidates, next, gone), e', w), next)
    ensures Below(Exec(ops, e, w), next)
  {
    hide OpOk, Joins, Known, Values, Agree, FreshKept, Step, RenameOp, Below, OpReady, IsTarget, Rest;
    if ops == [] {
      FreshSelf(e', next);
      assert Rest(ops, candidates, next, gone) == [] by { RestNone(ops, candidates, next, gone); }
    } else {
      var init, op := ops[..|ops| - 1], ops[|ops| - 1];
      assert OpReady(op, candidates, e, e', next, gone, w);
      forall i {:trigger init[i]} | 0 <= i < |init| ensures OpReady(init[i], candidates, e, e', next, gone, w) {
        assert init[i] == ops[i];
      }
      TailAgrees(init, candidates, e, e', next, gone, w);
      ExecGrows(init, e, w);
      RestLast(ops, candidates, next, gone, e', w);
      TailStep(op, candidates, e, e', Exec(init, e, w), Exec(Rest(init, candidates, next, gone), e', w), next, gone, w);
    }
  }

  lemma RestNone(ops: seq<Op>, candidates: set<nat>, next: Id, gone: set<Id>)
    requires ops == []
    ensures Rest(ops, candidates, next, gone) == []
  {}

  lemma FreshSelf(e': Env, next: Id)
    ensures FreshKept(e', e', next)
  {}

  lemma BelowAll(e: Env, next: Id)
    requires Below(e, next)
    ensures forall r :: r in e.Keys ==> r < next
  {}

  lemma ReadyDefs(op: Op, candidates: set<nat>, e: Env, e': Env, next: Id, gone: set<Id>, w: World)
    requires OpReady(op, candidates, e, e', next, gone, w)
    ensures forall r :: r in Defs(op) ==> r < next
    ensures !IsTarget(op, candidates) ==> Defs(op) !! gone
  {}

  // ---------------------------------------------------------------- the spawn, the join and the loads

  ghost predicate DistinctResults(targets: seq<Op>) {
    && (forall i :: 0 <= i < |targets| ==> targets[i].Call?)
    && forall i, j :: 0 <= i < j < |targets| ==> targets[i].dst != targets[j].dst
  }

  ghost predicate NamesBelow(targets: seq<Op>, next: Id) {
    forall i {:trigger targets[i]} :: 0 <= i < |targets| ==> targets[i].Call? && targets[i].dst < next
  }

  /** The loads put each buffer's content under the load's name and change nothing else. */
  lemma {:induction false} LoadsRun(targets: seq<Op>, n: nat, env: Env, next: Id, w: World)
    requires DistinctResults(targets) && NamesBelow(targets, next) && n <= |targets|
    ensures
      var e := Exec(LoadsFor(targets, next)[..n], env, w);
      && (forall r {:trigger r in e} :: r in env && r < 2 * next ==> r in e && e[r] == env[r])
      && (forall r {:trigger r in e} :: r in e && r < 2 * next ==> r in env)
      && forall i {:trigger targets[i]} :: 0 <= i < n ==>
           LoadOf(next, targets[i].dst) in e && e[LoadOf(next, targets[i].dst)] == Value(Ref(BufferOf(next, targets[i].dst)), env)
  {
    if n > 0 {
      LoadsRun(targets, n - 1, env, next, w);
      var loads, op := LoadsFor(targets, next), targets[n - 1];
      assert loads[..n][..n - 1] == loads[..n - 1];
      var before := Exec(loads[..n - 1], env, w);
      assert Exec(loads[..n], env, w) == before[LoadOf(next, op.dst) := Value(Ref(BufferOf(next, op.dst)), before)];
      assert Value(Ref(BufferOf(next, op.dst)), before) == Value(Ref(BufferOf(next, op.dst)), env);
    }
  }

  // ---------------------------------------------------------------- the calls of a stage

  lemma {:induction false} TargetsConcat(a: seq<Op>, b: seq<Op>, candidates: set<nat>)
    ensures Targets(a + b, candidates) == Targets(a, candidates) + Targets(b, candidates)
  {
    if b == [] {
      assert a + b == a;
    } else {
      assert (a + b)[..|a + b| - 1] == a + b[..|b| - 1];
      TargetsConcat(a, b[..|b| - 1], candidates);
    }
  }

  lemma {:induction false} TargetsNone(ops: seq<Op>, candidates: set<nat>)
    requires forall i :: 0 <= i < |ops| ==> !IsTarget(ops[i], candidates)
    ensures Targets(ops, candidates) == []
  {
    if ops != [] { TargetsNone(ops[..|ops| - 1], candidates); }
  }

  /** All calls of the stage lie from the first one on. */
  lemma TargetsOfTail(ops: seq<Op>, candidates: set<nat>)
    ensures Targets(ops, candidates) == Targets(ops[First(ops, candidates)..], candidates)
  {
    var k := First(ops, candidates);
    assert ops == ops[..k] + ops[k..];
    TargetsConcat(ops[..k], ops[k..], candidates);
    TargetsNone(ops[..k], candidates);
  }

  lemma {:induction false} TargetListed(ops: seq<Op>, candidates: set<nat>, i: nat) returns (t: nat)
    requires i < |ops| && IsTarget(ops[i], candidates)
    ensures t < |Targets(ops, candidates)| && Targets(ops, candidates)[t] == ops[i]
  {
    if i == |ops| - 1 {
      t := |Targets(ops[..|ops| - 1], candidates)|;
    } else {
      t := TargetListed(ops[..|ops| - 1], candidates, i);
    }
  }

  lemma OpFresh(op: Op, known: set<Id>)
    requires OpOk(op, known)
    ensures Defs(op) !! known
  {}

  lemma DistinctExtend(ts: seq<Op>, op: Op)
    requires DistinctResults(ts) && op.Call? && op.dst !in DefsOf(ts)
    ensures DistinctResults(ts + [op]) && DefsOf(ts + [op]) == DefsOf(ts) + {op.dst}
  {
    assert (ts + [op])[..|ts|] == ts;
    forall i | 0 <= i < |ts| ensures ts[i].dst != op.dst { DstDefined(ts, i); }
  }

  lemma {:induction false} TargetsInCode(ops: seq<Op>, candidates: set<nat>, known: set<Id>)
    requires CodeOk(ops, known)
    ensures DefsOf(Targets(ops, candidates)) <= DefsOf(ops) && DistinctResults(Targets(ops, candidates))
  {
    hide OpOk;
    if ops != [] {
      var init, op := ops[..|ops| - 1], ops[|ops| - 1];
      TargetsInCode(init, candidates, known);
      OpFresh(op, known + DefsOf(init));
      var ts := Targets(init, candidates);
      if IsTarget(op, candidates) {
        DistinctExtend(ts, op);
      } else {
        assert ts + [] == ts;
      }
    }
  }

  lemma {:induction false} DstDefined(ts: seq<Op>, i: nat)
    requires i < |ts| && ts[i].Call?
    ensures ts[i].dst in DefsOf(ts)
  {
    if i < |ts| - 1 { DstDefined(ts[..|ts| - 1], i); }
  }

  lemma {:induction false} DefinedDst(ts: seq<Op>, r: Id) returns (i: nat)
    requires r in DefsOf(ts) && forall i :: 0 <= i < |ts| ==> ts[i].Call?
    ensures i < |ts| && ts[i].dst == r
  {
    if ts[|ts| - 1].dst == r { i := |ts| - 1; } else { i := DefinedDst(ts[..|ts| - 1], r); }
  }

  lemma {:induction false} CodeFresh(ops: seq<Op>, known: set<Id>)
    requires CodeOk(ops, known)
    ensures DefsOf(ops) !! known
  {
    if ops != [] { CodeFresh(ops[..|ops| - 1], known); }
  }

  /** An operation that is not a call of the stage defines none of the stage's results. */
  lemma {:induction false} OtherDefs(ops: seq<Op>, candidates: set<nat>, known: set<Id>, i: nat)
    requires CodeOk(ops, known) && i < |ops|
    ensures Defs(ops[i]) <= DefsOf(ops)
    ensures !IsTarget(ops[i], candidates) ==> Defs(ops[i]) !! DefsOf(Targets(ops, candidates))
  {
    hide OpOk;
    var init, op := ops[..|ops| - 1], ops[|ops| - 1];
    var ts := Targets(init, candidates);
    TargetsInCode(init, candidates, known);
    OpFresh(op, known + DefsOf(init));
    if IsTarget(op, candidates) { assert (ts + [op])[..|ts|] == ts; } else { assert ts + [] == ts; }
    if i < |ops| - 1 { OtherDefs(init, candidates, known, i); }
  }

  // ---------------------------------------------------------------- one stage

  /** A body split at the stage's first call. */
  datatype Split = Split(pre: seq<Op>, tail: seq<Op>, targets: seq<Op>, gone: set<Id>, next: Id)

  function SplitOf(b: Body, candidates: set<nat>): (s: Split)
    ensures b.ops == s.pre + s.tail
  {
    var k, targets := First(b.ops, candidates), Targets(b.ops, candidates);
    Split(b.ops[..k], b.ops[k..], targets, DefsOf(targets), b.next)
  }

  ghost predicate SplitOk(s: Split, params: set<Id>, candidates: set<nat>) {
    && CodeOk(s.pre, params) && CodeOk(s.tail, params + DefsOf(s.pre))
    && s.targets == Targets(s.tail, candidates) && s.gone == DefsOf(s.targets)
    && DistinctResults(s.targets)
    && (forall r :: r in params || r in DefsOf(s.pre) || r in DefsOf(s.tail) ==> r < s.next)
    && (forall i :: 0 <= i < |s.targets| ==> Known(s.targets[i].args, params + DefsOf(s.pre)))
  }

  lemma SplitHolds(b: Body, params: set<Id>, candidates: set<nat>)
    requires BodyOk(b, params) && OperandsAvailable(b, params, candidates)
    ensures SplitOk(SplitOf(b, candidates), params, candidates)
  {
    hide OpOk;
    var s := SplitOf(b, candidates);
    CodeConcat(s.pre, s.tail, params);
    DefsConcat(s.pre, s.tail);
    TargetsOfTail(b.ops, candidates);
    TargetsInCode(s.tail, candidates, params + DefsOf(s.pre));
  }

  lemma TasksFresh(targets: seq<Op>, next: Id)
    requires forall i :: 0 <= i < |targets| ==> targets[i].Call?
    ensures forall b :: b in Buffers(TasksFor(targets, next)) ==> b >= next
  {}

  /** After the join: everything known before it is as it was. */
  lemma JoinAgrees(s: Split, params: set<Id>, candidates: set<nat>, e0: Env, w: World)
    requires SplitOk(s, params, candidates) && e0.Keys == params + DefsOf(s.pre)
    ensures Agree(e0, Exec(LoadsFor(s.targets, s.next), Step(SpawnAwait(TasksFor(s.targets, s.next)), e0, w), w), s.next, s.gone)
  {
    TasksFresh(s.targets, s.next);
    hide OpOk, RunTasks, CodeOk, DefsOf, Known, Targets, TasksFor, LoadsFor, Exec, Buffers;
    var tasks, loads := TasksFor(s.targets, s.next), LoadsFor(s.targets, s.next);
    var e1 := RunTasks(tasks, e0, e0, w.order(tasks), w);
    var e2 := Exec(loads, e1, w);
    TargetsNamed(s, params, candidates);
    LoadsRun(s.targets, |s.targets|, e1, s.next, w);
    assert loads[..|s.targets|] == loads;
    CodeFresh(s.tail, params + DefsOf(s.pre));
    TargetsInCode(s.tail, candidates, params + DefsOf(s.pre));
    RunTasksKeys(tasks, e0, e0, w.order(tasks), w);
    forall r {:trigger r in e0} | r in e0 ensures r !in s.gone && r in e2 && e2[r] == e0[r] {
      assert r < s.next && r in e1 && e1[r] == e0[r];
    }
  }

  /** And all results of the stage are there. */
  lemma JoinReady(s: Split, params: set<Id>, candidates: set<nat>, e0: Env, w: World)
    requires SplitOk(s, params, candidates) && e0.Keys == params + DefsOf(s.pre) && Joins(w)
    ensures Ready(s.tail, candidates, e0, Exec(LoadsFor(s.targets, s.next), Step(SpawnAwait(TasksFor(s.targets, s.next)), e0, w), w), s.next, s.gone, w)
  {
    hide OpOk, Step, Exec, CodeOk, DefsOf, Known, Targets;
    var e2 := Exec(LoadsFor(s.targets, s.next), Step(SpawnAwait(TasksFor(s.targets, s.next)), e0, w), w);
    forall i {:trigger s.tail[i]} | 0 <= i < |s.tail| ensures OpReady(s.tail[i], candidates, e0, e2, s.next, s.gone, w) {
      OtherDefs(s.tail, candidates, params + DefsOf(s.pre), i);
      if IsTarget(s.tail[i], candidates) {
        var t := TargetListed(s.tail, candidates, i);
        ResultLoaded(s, params, candidates, e0, w, t);
      }
    }
  }

  lemma TargetsNamed(s: Split, params: set<Id>, candidates: set<nat>)
    requires SplitOk(s, params, candidates)
    ensures NamesBelow(s.targets, s.next) && forall i :: 0 <= i < |s.targets| ==> s.targets[i].dst in s.gone
  {
    TargetsInCode(s.tail, candidates, params + DefsOf(s.pre));
    forall i | 0 <= i < |s.targets| ensures s.targets[i].dst in s.gone { DstDefined(s.targets, i); }
  }

  lemma ResultLoaded(s: Split, params: set<Id>, candidates: set<nat>, e0: Env, w: World, t: nat)
    requires SplitOk(s, params, candidates) && Joins(w) && t < |s.targets|
    ensures
      var e2 := Exec(LoadsFor(s.targets, s.next), Step(SpawnAwait(TasksFor(s.targets, s.next)), e0, w), w);
      var op := s.targets[t];
      && op.dst in s.gone && LoadOf(s.next, op.dst) in e2
      && e2[LoadOf(s.next, op.dst)] == w.interp(op.callee, Values(op.args, e0))
  {
    hide OpOk, RunTasks;
    var tasks, loads := TasksFor(s.targets, s.next), LoadsFor(s.targets, s.next);
    TargetsNamed(s, params, candidates);
    var e1 := RunTasks(tasks, e0, e0, w.order(tasks), w);
    forall i, j | 0 <= i < j < |tasks| ensures tasks[i].buffer != tasks[j].buffer {
      assert s.targets[i].dst != s.targets[j].dst;
    }
    assert tasks[t].callee == s.targets[t].callee;
    RunTasksResult(tasks, e0, e0, w.order(tasks), w, t);
    LoadsRun(s.targets, |s.targets|, e1, s.next, w);
    assert loads[..|s.targets|] == loads;
    assert s.targets[t] == s.targets[t];
  }

  /** One stage: every original value is computed by the rewritten body too, replaced results under their loads' names, and the result is the same. */
  lemma SpawnedAgrees(b: Body, params: set<Id>, candidates: set<nat>, env: Env, w: World)
    requires BodyOk(b, params) && OperandsAvailable(b, params, candidates) && env.Keys == params && Joins(w)
    ensures Agree(Exec(b.ops, env, w), Exec(Spawned(b, candidates).ops, env, w), b.next, DefsOf(Targets(b.ops, candidates)))
    ensures Result(Spawned(b, candidates), env, w) == Result(b, env, w)
  {
    SplitHolds(b, params, candidates);
    var s := SplitOf(b, candidates);
    ExecGrows(s.pre, env, w);
    ExecGrows(b.ops, env, w);
    hide OpOk, Step, Agree, Ready, Joins, RunTasks;
    var e0 := Exec(s.pre, env, w);
    var spawn, loads, rest := SpawnAwait(TasksFor(s.targets, s.next)), LoadsFor(s.targets, s.next), Rest(s.tail, candidates, s.next, s.gone);
    JoinAgrees(s, params, candidates, e0, w);
    JoinReady(s, params, candidates, e0, w);
    TailAgrees(s.tail, candidates, e0, Exec(loads, Step(spawn, e0, w), w), s.next, s.gone, w);
    ExecCompose(s.pre, s.tail, env, w);
    SpawnedRuns(s, spawn, loads, rest, env, w);
    AgreeResult(b.result, Exec(b.ops, env, w), Exec(Spawned(b, candidates).ops, env, w), s.next, s.gone);
  }

  lemma SpawnedRuns(s: Split, spawn: Op, loads: seq<Op>, rest: seq<Op>, env: Env, w: World)
    ensures Exec(s.pre + [spawn] + loads + rest, env, w) == Exec(rest, Exec(loads, Step(spawn, Exec(s.pre, env, w), w), w), w)
  {
    hide Step;
    ExecCompose(s.pre + [spawn] + loads, rest, env, w);
    ExecCompose(s.pre + [spawn], loads, env, w);
    assert (s.pre + [spawn])[..|s.pre|] == s.pre;
  }

  lemma AgreeResult(a: Arg, e: Env, e': Env, next: Id, gone: set<Id>)
    requires Agree(e, e', next, gone) && (a.Ref? ==> a.id in e)
    ensures Value(Rename(a, next, gone), e') == Value(a, e)
  {}

  // ---------------------------------------------------------------- the rewritten body is well formed

  /** What is known after the join: as before, and the buffers and loads. */
  function AfterJoin(s: Split, params: set<Id>): set<Id>
    requires forall i :: 0 <= i < |s.targets| ==> s.targets[i].Call?
  {
    params + DefsOf(s.pre) + Buffers(TasksFor(s.targets, s.next)) + DefsOf(LoadsFor(s.targets, s.next))
  }

  lemma {:induction false} LoadsDefine(targets: seq<Op>, n: nat, next: Id)
    requires DistinctResults(targets) && n <= |targets|
    ensures forall r {:trigger r in DefsOf(LoadsFor(targets, next)[..n])} ::
              r in DefsOf(LoadsFor(targets, next)[..n]) <==> exists i :: 0 <= i < n && r == LoadOf(next, targets[i].dst)
  {
    if n > 0 {
      LoadsDefine(targets, n - 1, next);
      assert LoadsFor(targets, next)[..n][..n - 1] == LoadsFor(targets, next)[..n - 1];
    }
  }

  lemma {:induction false} LoadsOk(targets: seq<Op>, n: nat, next: Id, known: set<Id>)
    requires DistinctResults(targets) && NamesBelow(targets, next) && n <= |targets|
    requires forall r :: r in known ==> r < 2 * next
    requires forall i :: 0 <= i < |targets| ==> BufferOf(next, targets[i].dst) in known
    ensures CodeOk(LoadsFor(targets, next)[..n], known)
  {
    if n > 0 {
      LoadsOk(targets, n - 1, next, known);
      LoadsDefine(targets, n - 1, next);
      var loads := LoadsFor(targets, next);
      assert loads[..n][..n - 1] == loads[..n - 1];
      assert targets[n - 1] == targets[n - 1];
      assert BufferOf(next, targets[n - 1].dst) in known;
    }
  }

  lemma RenamedKnown(args: seq<Arg>, known: set<Id>, known': set<Id>, next: Id, gone: set<Id>)
    requires Known(args, known)
    requires forall r :: r in known ==> (if r in gone then LoadOf(next, r) else r) in known'
    ensures Known(RenameArgs(args, next, gone), known')
  {
    forall k | 0 <= k < |args| && RenameArgs(args, next, gone)[k].Ref? ensures RenameArgs(args, next, gone)[k].id in known' {}
  }

  lemma RenamedOpOk(op: Op, known: set<Id>, known': set<Id>, next: Id, gone: set<Id>)
    requires OpOk(op, known) && Defs(op) !! known'
    requires forall r :: r in known ==> (if r in gone then LoadOf(next, r) else r) in known'
    ensures OpOk(RenameOp(op, next, gone), known') && Defs(RenameOp(op, next, gone)) == Defs(op)
  {
    match op
    case Pure(_, _, args) => RenamedKnown(args, known, known', next, gone);
    case Call(_, _, args) => RenamedKnown(args, known, known', next, gone);
    case LoadResult(_, _) =>
    case SpawnAwait(tasks) =>
      RenamedBuffers(tasks, next, gone);
      forall i | 0 <= i < |tasks| ensures Known(RenameTasks(tasks, next, gone)[i].args, known') {
        RenamedKnown(tasks[i].args, known, known', next, gone);
      }
  }

  /** The rewritten tail is well formed after the join and defines what the original does, but for the stage's results. */
  lemma {:induction false} RestOk(ops: seq<Op>, candidates: set<nat>, known: set<Id>, known': set<Id>, next: Id, gone: set<Id>)
    requires CodeOk(ops, known)
    requires forall r :: r in known || (r in DefsOf(ops) && r in gone) ==> (if r in gone then LoadOf(next, r) else r) in known'
    requires forall r :: r in DefsOf(ops) ==> r !in known'
    requires forall i :: 0 <= i < |ops| ==> if IsTarget(ops[i], candidates) then ops[i].dst in gone else Defs(ops[i]) !! gone
    ensures CodeOk(Rest(ops, candidates, next, gone), known')
    ensures DefsOf(Rest(ops, candidates, next, gone)) == DefsOf(ops) - gone
  {
    hide OpOk, RenameOp;
    if ops != [] {
      var init, op := ops[..|ops| - 1], ops[|ops| - 1];
      forall i | 0 <= i < |init| ensures if IsTarget(init[i], candidates) then init[i].dst in gone else Defs(init[i]) !! gone {
        assert init[i] == ops[i];
      }
      RestOk(init, candidates, known, known', next, gone);
      var rest := Rest(init, candidates, next, gone);
      if IsTarget(op, candidates) {
        assert rest + [] == rest;
      } else {
        OpFresh(op, known + DefsOf(init));
        RenamedOpOk(op, known + DefsOf(init), known' + DefsOf(rest), next, gone);
        assert (rest + [RenameOp(op, next, gone)])[..|rest|] == rest;
      }
    }
  }

  lemma TailReady(s: Split, params: set<Id>, candidates: set<nat>)
    requires SplitOk(s, params, candidates)
    ensures CodeOk(Rest(s.tail, candidates, s.next, s.gone), AfterJoin(s, params))
    ensures DefsOf(Rest(s.tail, candidates, s.next, s.gone)) == DefsOf(s.tail) - s.gone
  {
    var known := params + DefsOf(s.pre);
    TargetsNamed(s, params, candidates);
    TasksFresh(s.targets, s.next);
    LoadsDefine(s.targets, |s.targets|, s.next);
    assert LoadsFor(s.targets, s.next)[..|s.targets|] == LoadsFor(s.targets, s.next);
    CodeFresh(s.tail, known);
    TargetsInCode(s.tail, candidates, known);
    hide OpOk, CodeOk, Known, Targets, Buffers, LoadsFor, TasksFor;
    forall r | r in s.gone ensures LoadOf(s.next, r) in AfterJoin(s, params) {
      var i := DefinedDst(s.targets, r);
    }
    forall i | 0 <= i < |s.tail| ensures if IsTarget(s.tail[i], candidates) then s.tail[i].dst in s.gone else Defs(s.tail[i]) !! s.gone {
      OtherDefs(s.tail, candidates, known, i);
      if IsTarget(s.tail[i], candidates) { var t := TargetListed(s.tail, candidates, i); }
    }
    forall r | r in DefsOf(s.tail) ensures r !in AfterJoin(s, params) {
      assert r < s.next;
    }
    RestOk(s.tail, candidates, known, AfterJoin(s, params), s.next, s.gone);
  }

  /** The tasks: buffers of their own with fresh names, operands known at the join. */
  lemma TasksOk(s: Split, params: set<Id>, candidates: set<nat>, i: nat)
    requires SplitOk(s, params, candidates) && i < |s.targets|
    ensures
      var tasks := TasksFor(s.targets, s.next);
      && Known(tasks[i].args, params + DefsOf(s.pre)) && tasks[i].buffer in Buffers(tasks)
      && tasks[i].buffer == BufferOf(s.next, s.targets[i].dst) < 2 * s.next
      && forall j :: 0 <= j < i ==> tasks[j].buffer != tasks[i].buffer
  {
    hide OpOk, CodeOk, DefsOf, Known, Targets;
    TargetsNamed(s, params, candidates);
    var tasks := TasksFor(s.targets, s.next);
    assert s.targets[i].dst < s.next;
    forall j | 0 <= j < i ensures tasks[j].buffer != tasks[i].buffer { assert s.targets[j].dst != s.targets[i].dst; }
  }

  lemma SpawnOk(s: Split, params: set<Id>, candidates: set<nat>)
    requires SplitOk(s, params, candidates)
    ensures OpOk(SpawnAwait(TasksFor(s.targets, s.next)), params + DefsOf(s.pre))
  {
    TasksFresh(s.targets, s.next);
    hide CodeOk, DefsOf, Known, Targets, TasksFor, Buffers;
    var tasks := TasksFor(s.targets, s.next);
    forall i | 0 <= i < |tasks| ensures Known(tasks[i].args, params + DefsOf(s.pre)) { TasksOk(s, params, candidates, i); }
    forall i, j | 0 <= i < j < |tasks| ensures tasks[i].buffer != tasks[j].buffer { TasksOk(s, params, candidates, j); }
  }

  lemma JoinOk(s: Split, params: set<Id>, candidates: set<nat>)
    requires SplitOk(s, params, candidates)
    ensures CodeOk(LoadsFor(s.targets, s.next), params + DefsOf(s.pre) + Buffers(TasksFor(s.targets, s.next)))
  {
    TargetsNamed(s, params, candidates);
    hide OpOk, CodeOk, DefsOf, Known, Targets, TasksFor;
    var tasks, loads := TasksFor(s.targets, s.next), LoadsFor(s.targets, s.next);
    forall i | 0 <= i < |s.targets| ensures BufferOf(s.next, s.targets[i].dst) in Buffers(tasks) { TasksOk(s, params, candidates, i); }
    forall d | d in Buffers(tasks) ensures d < 2 * s.next {
      var i :| 0 <= i < |tasks| && tasks[i].buffer == d;
      TasksOk(s, params, candidates, i);
    }
    LoadsOk(s.targets, |s.targets|, s.next, params + DefsOf(s.pre) + Buffers(tasks));
    assert loads[..|s.targets|] == loads;
  }

  lemma NewNames(s: Split, params: set<Id>, candidates: set<nat>)
    requires SplitOk(s, params, candidates)
    ensures forall d :: d in Buffers(TasksFor(s.targets, s.next)) || d in DefsOf(LoadsFor(s.targets, s.next)) ==> d < 3 * s.next
    ensures forall d :: d in s.gone ==> LoadOf(s.next, d) in DefsOf(LoadsFor(s.targets, s.next))
  {
    TargetsNamed(s, params, candidates);
    LoadsDefine(s.targets, |s.targets|, s.next);
    hide OpOk, CodeOk, Known, Targets, TasksFor, LoadsFor;
    var tasks, loads := TasksFor(s.targets, s.next), LoadsFor(s.targets, s.next);
    assert loads[..|s.targets|] == loads;
    forall d | d in Buffers(tasks) ensures d < 3 * s.next {
      var i :| 0 <= i < |tasks| && tasks[i].buffer == d;
      TasksOk(s, params, candidates, i);
    }
    forall d | d in DefsOf(loads) ensures d < 3 * s.next {
      var i :| 0 <= i < |s.targets| && d == LoadOf(s.next, s.targets[i].dst);
      assert s.targets[i].dst < s.next;
    }
    forall d | d in s.gone ensures LoadOf(s.next, d) in DefsOf(loads) {
      var i := DefinedDst(s.targets, d);
    }
  }

  function JoinedOps(s: Split, candidates: set<nat>): seq<Op>
    requires forall i :: 0 <= i < |s.targets| ==> s.targets[i].Call?
  {
    s.pre + [SpawnAwait(TasksFor(s.targets, s.next))] + LoadsFor(s.targets, s.next) + Rest(s.tail, candidates, s.next, s.gone)
  }

  lemma JoinedCode(s: Split, params: set<Id>, candidates: set<nat>)
    requires SplitOk(s, params, candidates)
    ensures CodeOk(JoinedOps(s, candidates), params)
    ensures DefsOf(JoinedOps(s, candidates)) ==
              DefsOf(s.pre) + Buffers(TasksFor(s.targets, s.next)) + DefsOf(LoadsFor(s.targets, s.next)) + (DefsOf(s.tail) - s.gone)
  {
    SplitPre(s, params, candidates);
    SpawnOk(s, params, candidates);
    JoinOk(s, params, candidates);
    TailReady(s, params, candidates);
    hide OpOk, CodeOk, DefsOf, Rest, LoadsFor, TasksFor, Buffers, SplitOk;
    SpawnedCode(s, SpawnAwait(TasksFor(s.targets, s.next)), LoadsFor(s.targets, s.next), Rest(s.tail, candidates, s.next, s.gone), params);
  }

  /** Names of the rewritten body stay below its bound, and replaced results have their loads. */
  lemma JoinedNames(s: Split, params: set<Id>, candidates: set<nat>, r: Id)
    requires SplitOk(s, params, candidates)
    ensures r in params + DefsOf(JoinedOps(s, candidates)) ==> r < 3 * s.next
    ensures r in params + DefsOf(s.pre) + DefsOf(s.tail) ==> (if r in s.gone then LoadOf(s.next, r) else r) in params + DefsOf(JoinedOps(s, candidates))
  {
    JoinedCode(s, params, candidates);
    NewNames(s, params, candidates);
    hide OpOk, CodeOk, DefsOf, Rest, LoadsFor, TasksFor, Buffers, JoinedOps;
  }

  /** The rewrite leaves single-assignment code, ready for the next stage. */
  lemma SpawnedOk(b: Body, params: set<Id>, candidates: set<nat>)
    requires BodyOk(b, params) && OperandsAvailable(b, params, candidates)
    ensures BodyOk(Spawned(b, candidates), params)
  {
    SplitHolds(b, params, candidates);
    var s := SplitOf(b, candidates);
    DefsConcat(s.pre, s.tail);
    hide CodeOk, DefsOf, SplitOk, First, Targets;
    JoinedCode(s, params, candidates);
    assert Spawned(b, candidates).ops == JoinedOps(s, candidates);
    forall r | r in params || r in DefsOf(JoinedOps(s, candidates)) ensures r < 3 * b.next {
      JoinedNames(s, params, candidates, r);
    }
    if b.result.Ref? { JoinedNames(s, params, candidates, b.result.id); }
  }

  lemma SplitPre(s: Split, params: set<Id>, candidates: set<nat>)
    requires SplitOk(s, params, candidates)
    ensures CodeOk(s.pre, params)
  {}

  lemma SpawnedCode(s: Split, spawn: Op, loads: seq<Op>, rest: seq<Op>, params: set<Id>)
    requires CodeOk(s.pre, params) && OpOk(spawn, params + DefsOf(s.pre)) && CodeOk(loads, params + DefsOf(s.pre) + Defs(spawn))
    requires CodeOk(rest, params + DefsOf(s.pre) + Defs(spawn) + DefsOf(loads))
    ensures CodeOk(s.pre + [spawn] + loads + rest, params)
    ensures DefsOf(s.pre + [spawn] + loads + rest) == DefsOf(s.pre) + Defs(spawn) + DefsOf(loads) + DefsOf(rest)
  {
    hide OpOk;
    var a := s.pre + [spawn];
    assert a[..|s.pre|] == s.pre;
    assert params + DefsOf(a) == params + DefsOf(s.pre) + Defs(spawn);
    CodeConcat(a, loads, params);
    DefsConcat(a, loads);
    assert params + DefsOf(a + loads) == params + DefsOf(s.pre) + Defs(spawn) + DefsOf(loads);
    CodeConcat(a + loads, rest, params);
    DefsConcat(a + loads, rest);
  }

  /** The check declines no stage that could be spawned: spawning it would use a value before it is defined. */
  lemma CheckExact(b: Body, params: set<Id>, candidates: set<nat>)
    requires BodyOk(b, params)
    ensures OperandsAvailable(b, params, candidates) <==> BodyOk(Spawned(b, candidates), params)
  {
    if OperandsAvailable(b, params, candidates) {
      SpawnedOk(b, params, candidates);
    } else {
      var s := SplitOf(b, candidates);
      TargetsAreCalls(b.ops, candidates);
      var spawn, loads, rest := SpawnAwait(TasksFor(s.targets, s.next)), LoadsFor(s.targets, s.next), Rest(s.tail, candidates, s.next, s.gone);
      var i :| 0 <= i < |s.targets| && !Known(s.targets[i].args, params + DefsOf(s.pre));
      assert TasksFor(s.targets, s.next)[i].args == s.targets[i].args;
      assert !OpOk(spawn, params + DefsOf(s.pre));
      hide OpOk, Rest, LoadsFor, TasksFor;
      assert (s.pre + [spawn])[..|s.pre|] == s.pre;
      assert !CodeOk(s.pre + [spawn], params);
      CodeConcat(s.pre + [spawn], loads, params);
      CodeConcat(s.pre + [spawn] + loads, rest, params);
    }
  }

  // ---------------------------------------------------------------- what a rewritten stage looks like

  predicate CallAt(ops: seq<Op>, candidates: set<nat>, i: nat) { i < |ops| && ops[i].Call? && ops[i].callee in candidates }

  /** No call of the stage is left. */
  predicate NoCalls(ops: seq<Op>, candidates: set<nat>) { forall i :: 0 <= i < |ops| ==> !CallAt(ops, candidates, i) }

  /** The places of the stage's calls, in order. */
  predicate CallPlaces(ops: seq<Op>, candidates: set<nat>, ps: seq<nat>) {
    && (forall j, l :: 0 <= j < l < |ps| ==> ps[j] < ps[l])
    && (forall j :: 0 <= j < |ps| ==> CallAt(ops, candidates, ps[j]))
    && (forall i {:trigger CallAt(ops, candidates, i)} :: 0 <= i < |ops| && CallAt(ops, candidates, i) ==> i in ps)
  }

  /** The same operation, but for the values it uses. */
  ghost predicate SameButOperands(op: Op, op': Op) {
    match op
    case Pure(d, fn, args) => op'.Pure? && op'.dst == d && op'.fn == fn && |op'.args| == |args|
    case Call(d, f, args) => op'.Call? && op'.dst == d && op'.callee == f && |op'.args| == |args|
    case SpawnAwait(tasks) =>
      && op'.SpawnAwait? && |op'.tasks| == |tasks|
      && forall i :: 0 <= i < |tasks| ==>
           op'.tasks[i].buffer == tasks[i].buffer && op'.tasks[i].callee == tasks[i].callee && |op'.tasks[i].args| == |tasks[i].args|
    case LoadResult(d, _) => op'.LoadResult? && op'.dst == d
  }

  /** The operations that are no calls of the stage, in order, each the same but for the values it uses. */
  ghost predicate Erased(ops: seq<Op>, candidates: set<nat>, kept: seq<Op>) {
    if ops == [] then kept == []
    else if CallAt(ops, candidates, |ops| - 1) then Erased(ops[..|ops| - 1], candidates, kept)
    else kept != [] && SameButOperands(ops[|ops| - 1], kept[|kept| - 1]) && Erased(ops[..|ops| - 1], candidates, kept[..|kept| - 1])
  }

  /**
    * Where the first call of the stage was there is one spawn, whose tasks are all the stage's calls in order, on the operands those
    * had; then as many loads of their results; what came before is as it was, and of what came after only the calls are gone.
    */
  ghost predicate SpawnedAt(b: Body, candidates: set<nat>, ps: seq<nat>, r: Body)
    requires CallPlaces(b.ops, candidates, ps)
  {
    && ps != [] && |r.ops| == |b.ops| + 1
    && r.ops[..ps[0]] == b.ops[..ps[0]]
    && r.ops[ps[0]].SpawnAwait? && |r.ops[ps[0]].tasks| == |ps|
    && (forall j :: 0 <= j < |ps| ==>
          && r.ops[ps[0]].tasks[j].callee == b.ops[ps[j]].callee && r.ops[ps[0]].tasks[j].args == b.ops[ps[j]].args
          && ps[0] + 1 + j < |r.ops| && r.ops[ps[0] + 1 + j].LoadResult? && r.ops[ps[0] + 1 + j].buffer == r.ops[ps[0]].tasks[j].buffer)
    && ps[0] + 1 + |ps| <= |r.ops|
    && Erased(b.ops[ps[0]..], candidates, r.ops[ps[0] + 1 + |ps|..])
  }

  ghost predicate Parallelized(b: Body, candidates: set<nat>, r: Body) {
    NoCalls(r.ops, candidates) && exists ps :: CallPlaces(b.ops, candidates, ps) && SpawnedAt(b, candidates, ps, r)
  }

  /** The stage has calls, and what they use is a parameter or defined before the first of them. */
  ghost predicate Spawnable(b: Body, params: set<Id>, candidates: set<nat>) {
    exists k: nat :: FirstCallAt(b.ops, candidates, k) && AvailableAt(b, params, candidates, k)
  }

  predicate FirstCallAt(ops: seq<Op>, candidates: set<nat>, k: nat) {
    CallAt(ops, candidates, k) && forall i :: 0 <= i < k ==> !CallAt(ops, candidates, i)
  }

  ghost predicate AvailableAt(b: Body, params: set<Id>, candidates: set<nat>, k: nat)
    requires k < |b.ops|
  {
    forall i: nat {:trigger CallAt(b.ops, candidates, i)} :: CallAt(b.ops, candidates, i) ==> Known(b.ops[i].args, params + DefsOf(b.ops[..k]))
  }

  function Places(ops: seq<Op>, candidates: set<nat>): seq<nat> {
    if ops == [] then []
    else Places(ops[..|ops| - 1], candidates) + if CallAt(ops, candidates, |ops| - 1) then [|ops| - 1] else []
  }

  lemma {:induction false} PlacesOf(ops: seq<Op>, candidates: set<nat>)
    ensures CallPlaces(ops, candidates, Places(ops, candidates)) && |Places(ops, candidates)| == |Targets(ops, candidates)|
    ensures forall j :: 0 <= j < |Places(ops, candidates)| ==> Places(ops, candidates)[j] < |ops| && Targets(ops, candidates)[j] == ops[Places(ops, candidates)[j]]
  {
    if ops != [] {
      var init, ps := ops[..|ops| - 1], Places(ops, candidates);
      PlacesOf(init, candidates);
      forall i | 0 <= i < |init| ensures CallAt(init, candidates, i) <==> CallAt(ops, candidates, i) {}
      forall i {:trigger CallAt(ops, candidates, i)} | 0 <= i < |ops| && CallAt(ops, candidates, i) ensures i in ps {
        if i < |init| {
          assert CallAt(init, candidates, i);
          assert i in Places(init, candidates);
        }
      }
      forall j | 0 <= j < |ps| ensures CallAt(ops, candidates, ps[j]) {
        if j < |Places(init, candidates)| { assert CallAt(init, candidates, Places(init, candidates)[j]); }
      }
    }
  }

  lemma FirstPlace(ops: seq<Op>, candidates: set<nat>, ps: seq<nat>)
    requires CallPlaces(ops, candidates, ps)
    ensures if ps == [] then First(ops, candidates) == |ops| else First(ops, candidates) == ps[0] < |ops|
  {
    var k := First(ops, candidates);
    if k < |ops| { assert CallAt(ops, candidates, k); }
    if ps != [] { assert CallAt(ops, candidates, ps[0]) && IsTarget(ops[ps[0]], candidates); }
  }

  lemma {:induction false} RestErased(ops: seq<Op>, candidates: set<nat>, next: Id, gone: set<Id>)
    ensures Erased(ops, candidates, Rest(ops, candidates, next, gone))
    ensures |Rest(ops, candidates, next, gone)| + |Targets(ops, candidates)| == |ops|
    ensures NoCalls(Rest(ops, candidates, next, gone), candidates)
  {
    if ops != [] {
      var init, last := ops[..|ops| - 1], ops[|ops| - 1];
      RestErased(init, candidates, next, gone);
      var before := Rest(init, candidates, next, gone);
      assert CallAt(ops, candidates, |ops| - 1) <==> IsTarget(last, candidates);
      hide NoCalls, IsTarget, CallAt;
      if IsTarget(last, candidates) {
        assert Rest(ops, candidates, next, gone) == before;
      } else {
        var renamed := RenameOp(last, next, gone);
        assert (before + [renamed])[..|before|] == before;
        RenamedSame(last, next, gone, candidates);
        NoCallsMore(before, renamed, candidates);
      }
    }
  }

  lemma RenamedSame(op: Op, next: Id, gone: set<Id>, candidates: set<nat>)
    ensures SameButOperands(op, RenameOp(op, next, gone)) && (IsTarget(RenameOp(op, next, gone), candidates) <==> IsTarget(op, candidates))
  {}

  /** Before the first call there are no targets. */
  lemma {:induction false} TargetsTail(ops: seq<Op>, candidates: set<nat>, k: nat)
    requires k <= |ops| && forall i :: 0 <= i < k ==> !IsTarget(ops[i], candidates)
    ensures Targets(ops[k..], candidates) == Targets(ops, candidates)
    decreases |ops|
  {
    if k == |ops| {
      NoTargets(ops, candidates);
    } else {
      assert ops[k..][..|ops[k..]| - 1] == ops[..|ops| - 1][k..];
      TargetsTail(ops[..|ops| - 1], candidates, k);
    }
  }

  lemma {:induction false} NoTargets(ops: seq<Op>, candidates: set<nat>)
    requires forall i :: 0 <= i < |ops| ==> !IsTarget(ops[i], candidates)
    ensures Targets(ops, candidates) == []
  {
    if ops != [] { NoTargets(ops[..|ops| - 1], candidates); }
  }

  lemma SpawnedShape(b: Body, candidates: set<nat>)
    requires Targets(b.ops, candidates) != []
    ensures Parallelized(b, candidates, Spawned(b, candidates))
  {
    TargetsAreCalls(b.ops, candidates);
    PlacesOf(b.ops, candidates);
    var ps, targets := Places(b.ops, candidates), Targets(b.ops, candidates);
    FirstPlace(b.ops, candidates, ps);
    var k, n, gone := ps[0], |ps|, DefsOf(targets);
    var spawn, loads, rest := SpawnAwait(TasksFor(targets, b.next)), LoadsFor(targets, b.next), Rest(b.ops[k..], candidates, b.next, gone);
    TargetsTail(b.ops, candidates, k);
    RestErased(b.ops[k..], candidates, b.next, gone);
    hide Targets, Rest, Erased, First, Places;
    var r := Spawned(b, candidates);
    JoinedShape(b, candidates, ps, r, spawn, loads, rest);
  }

  lemma JoinedShape(b: Body, candidates: set<nat>, ps: seq<nat>, r: Body, spawn: Op, loads: seq<Op>, rest: seq<Op>)
    requires CallPlaces(b.ops, candidates, ps) && ps != [] && r.ops == b.ops[..ps[0]] + [spawn] + loads + rest
    requires ps[0] < |b.ops| && spawn.SpawnAwait? && |spawn.tasks| == |loads| == |ps| && |rest| + |ps| == |b.ops| - ps[0]
    requires forall j :: 0 <= j < |ps| ==>
               && ps[j] < |b.ops| && b.ops[ps[j]].Call? && spawn.tasks[j].callee == b.ops[ps[j]].callee && spawn.tasks[j].args == b.ops[ps[j]].args
               && loads[j].LoadResult? && loads[j].buffer == spawn.tasks[j].buffer
    requires Erased(b.ops[ps[0]..], candidates, rest) && NoCalls(rest, candidates)
    ensures SpawnedAt(b, candidates, ps, r) && NoCalls(r.ops, candidates)
  {
    hide Erased, NoCalls, SpawnedAt;
    JoinedParts(b, candidates, ps, r, spawn, loads, rest);
    var pre := b.ops[..ps[0]];
    PrefixNoCalls(b.ops, candidates, ps);
    NoCallsMore(pre, spawn, candidates);
    LoadsNoCalls(loads, candidates);
    NoCallsConcat(pre + [spawn], loads, candidates);
    NoCallsConcat(pre + [spawn] + loads, rest, candidates);
  }

  lemma JoinedParts(b: Body, candidates: set<nat>, ps: seq<nat>, r: Body, spawn: Op, loads: seq<Op>, rest: seq<Op>)
    requires CallPlaces(b.ops, candidates, ps) && ps != [] && ps[0] < |b.ops| && r.ops == b.ops[..ps[0]] + [spawn] + loads + rest
    requires spawn.SpawnAwait? && |spawn.tasks| == |loads| == |ps| && |rest| + |ps| == |b.ops| - ps[0]
    requires forall j :: 0 <= j < |ps| ==>
               && ps[j] < |b.ops| && b.ops[ps[j]].Call? && spawn.tasks[j].callee == b.ops[ps[j]].callee && spawn.tasks[j].args == b.ops[ps[j]].args
               && loads[j].LoadResult? && loads[j].buffer == spawn.tasks[j].buffer
    requires Erased(b.ops[ps[0]..], candidates, rest)
    ensures SpawnedAt(b, candidates, ps, r)
  {
    var k, n := ps[0], |ps|;
    hide Erased, CallPlaces;
    assert r.ops[k + 1 + n..] == rest && r.ops[..k] == b.ops[..k] && r.ops[k] == spawn;
    forall j | 0 <= j < n ensures r.ops[k + 1 + j] == loads[j] {}
  }

  lemma PrefixNoCalls(ops: seq<Op>, candidates: set<nat>, ps: seq<nat>)
    requires CallPlaces(ops, candidates, ps) && ps != []
    ensures ps[0] < |ops| && NoCalls(ops[..ps[0]], candidates) && FirstCallAt(ops, candidates, ps[0])
  {
    assert CallAt(ops, candidates, ps[0]);
    forall i | 0 <= i < ps[0] ensures !CallAt(ops, candidates, i) && !CallAt(ops[..ps[0]], candidates, i) {
      assert CallAt(ops, candidates, i) ==> i in ps;
    }
  }

  lemma LoadsNoCalls(loads: seq<Op>, candidates: set<nat>)
    requires forall j :: 0 <= j < |loads| ==> loads[j].LoadResult?
    ensures NoCalls(loads, candidates)
  {}

  lemma SpawnableExactly(b: Body, params: set<Id>, candidates: set<nat>)
    ensures Spawnable(b, params, candidates) <==> Targets(b.ops, candidates) != [] && OperandsAvailable(b, params, candidates)
  {
    PlacesOf(b.ops, candidates);
    TargetsAreCalls(b.ops, candidates);
    var ps, targets := Places(b.ops, candidates), Targets(b.ops, candidates);
    FirstPlace(b.ops, candidates, ps);
    hide Targets, Places, First, DefsOf, Known, CallAt;
    if k: nat :| FirstCallAt(b.ops, candidates, k) && AvailableAt(b, params, candidates, k) {
      assert k in ps;
      PrefixNoCalls(b.ops, candidates, ps);
      assert k == ps[0];
      forall i | 0 <= i < |targets| ensures Known(targets[i].args, params + DefsOf(b.ops[..k])) {
        assert CallAt(b.ops, candidates, ps[i]) && targets[i] == b.ops[ps[i]];
      }
    }
    if targets != [] && OperandsAvailable(b, params, candidates) {
      var k := ps[0];
      PrefixNoCalls(b.ops, candidates, ps);
      forall i: nat {:trigger CallAt(b.ops, candidates, i)} | CallAt(b.ops, candidates, i) ensures i < |b.ops| && Known(b.ops[i].args, params + DefsOf(b.ops[..k])) {
        CallInside(b.ops, candidates, i);
        assert i in ps;
        var j :| 0 <= j < |ps| && ps[j] == i;
        assert targets[j] == b.ops[i];
      }
      assert FirstCallAt(b.ops, candidates, k) && AvailableAt(b, params, candidates, k);
    }
  }

  lemma CallInside(ops: seq<Op>, candidates: set<nat>, i: nat)
    requires CallAt(ops, candidates, i)
    ensures i < |ops| && ops[i].Call?
  {}

  // ---------------------------------------------------------------- all stages

  /** All stages of a pipeline, one after the other: the result is the original one, whatever order each stage's tasks run in. */
  lemma {:induction false} StagesPreserve(b: Body, params: set<Id>, stages: seq<set<nat>>, env: Env, w: World)
    requires BodyOk(b, params) && env.Keys == params && Joins(w)
    ensures BodyOk(RewriteStages(b, params, stages), params)
    ensures Result(RewriteStages(b, params, stages), env, w) == Result(b, env, w)
  {
    hide BodyOk, Result, Spawned, OperandsAvailable, Joins;
    if stages != [] {
      var last := stages[|stages| - 1];
      StagesPreserve(b, params, stages[..|stages| - 1], env, w);
      var before := RewriteStages(b, params, stages[..|stages| - 1]);
      if Targets(before.ops, last) != [] && OperandsAvailable(before, params, last) {
        SpawnedOk(before, params, last);
        SpawnedAgrees(before, params, last, env, w);
      }
    }
  }

  /** One stage: its calls are gone exactly if there were none or it was spawned. */
  lemma StageCallsGone(b: Body, params: set<Id>, candidates: set<nat>)
    ensures NoCalls(RewriteStage(b, params, candidates).ops, candidates) <==> NoCalls(b.ops, candidates) || Spawnable(b, params, candidates)
  {
    SpawnableExactly(b, params, candidates);
    if Targets(b.ops, candidates) != [] { SpawnedShape(b, candidates); }
    hide OperandsAvailable, Spawned, Targets, CallAt, First;
  }

  lemma {:induction false} RestOtherCalls(ops: seq<Op>, candidates: set<nat>, next: Id, gone: set<Id>, others: set<nat>)
    requires others !! candidates
    ensures NoCalls(Rest(ops, candidates, next, gone), others) <==> NoCalls(ops, others)
  {
    if ops != [] {
      var init, last := ops[..|ops| - 1], ops[|ops| - 1];
      RestOtherCalls(init, candidates, next, gone, others);
      NoCallsMore(init, last, others);
      assert ops == init + [last];
      if !IsTarget(last, candidates) {
        NoCallsMore(Rest(init, candidates, next, gone), RenameOp(last, next, gone), others);
      } else {
        assert Rest(ops, candidates, next, gone) == Rest(init, candidates, next, gone);
      }
    }
  }

  lemma NoCallsMore(ops: seq<Op>, op: Op, others: set<nat>)
    ensures NoCalls(ops + [op], others) <==> NoCalls(ops, others) && !IsTarget(op, others)
  {
    var all := ops + [op];
    assert forall i :: 0 <= i < |ops| ==> (CallAt(all, others, i) <==> CallAt(ops, others, i));
    assert CallAt(all, others, |ops|) <==> IsTarget(op, others);
  }

  lemma {:induction false} NoCallsConcat(a: seq<Op>, b: seq<Op>, others: set<nat>)
    ensures NoCalls(a + b, others) <==> NoCalls(a, others) && NoCalls(b, others)
  {
    if b == [] {
      assert a + b == a;
    } else {
      var init, last := b[..|b| - 1], b[|b| - 1];
      NoCallsConcat(a, init, others);
      NoCallsMore(a + init, last, others);
      NoCallsMore(init, last, others);
      assert a + b == a + init + [last] && b == init + [last];
    }
  }

  /** Rewriting a stage neither takes nor adds calls of other functions. */
  lemma OtherCallsKept(b: Body, params: set<Id>, candidates: set<nat>, others: set<nat>)
    requires others !! candidates
    ensures NoCalls(RewriteStage(b, params, candidates).ops, others) <==> NoCalls(b.ops, others)
  {
    if Targets(b.ops, candidates) != [] && OperandsAvailable(b, params, candidates) {
      TargetsAreCalls(b.ops, candidates);
      var k, targets := First(b.ops, candidates), Targets(b.ops, candidates);
      var spawn, loads := [SpawnAwait(TasksFor(targets, b.next))], LoadsFor(targets, b.next);
      var rest := Rest(b.ops[k..], candidates, b.next, DefsOf(targets));
      RestOtherCalls(b.ops[k..], candidates, b.next, DefsOf(targets), others);
      assert b.ops == b.ops[..k] + b.ops[k..];
      NoCallsConcat(b.ops[..k], b.ops[k..], others);
      NoCallsConcat(b.ops[..k], spawn, others);
      NoCallsConcat(b.ops[..k] + spawn, loads, others);
      NoCallsConcat(b.ops[..k] + spawn + loads, rest, others);
    }
  }

  /** In the end the calls of a stage are gone exactly if there were none or it was spawned when its turn came. */
  lemma {:induction false} StagesGone(b: Body, params: set<Id>, stages: seq<set<nat>>, i: nat)
    requires i < |stages| && forall j :: i < j < |stages| ==> stages[i] !! stages[j]
    ensures
      var before := RewriteStages(b, params, stages[..i]);
      NoCalls(RewriteStages(b, params, stages).ops, stages[i]) <==> NoCalls(before.ops, stages[i]) || Spawnable(before, params, stages[i])
    decreases |stages|
  {
    hide RewriteStage, NoCalls, Spawnable;
    var init, last := stages[..|stages| - 1], stages[|stages| - 1];
    if i == |stages| - 1 {
      StageCallsGone(RewriteStages(b, params, init), params, last);
    } else {
      assert init[..i] == stages[..i];
      StagesGone(b, params, init, i);
      OtherCallsKept(RewriteStages(b, params, init), params, last, stages[i]);
    }
  }

  /** The scan for the stage's calls. */
  method CollectTargets(ops: seq<Op>, candidates: set<nat>) returns (targets: seq<Op>, first: nat)
    ensures targets == Targets(ops, candidates) && first == First(ops, candidates)
  {
    targets := [];
    first := |ops|;
    var i := 0;
    while i < |ops|
      invariant 0 <= i <= |ops|
      invariant targets == Targets(ops[..i], candidates)
      invariant First(ops[..i], candidates) == if targets == [] then i else first
      invariant targets == [] ==> first == |ops|
      invariant targets != [] ==> first < i
    {
      assert ops[..i + 1][..i] == ops[..i];
      if IsTarget(ops[i], candidates) {
        if targets == [] { first := i; }
        targets := targets + [ops[i]];
      }
      i := i + 1;
    }
    assert ops[..i] == ops;
  }

  /** The check that every operand is available where the tasks are spawned. */
  method CheckOperands(targets: seq<Op>, known: set<Id>) returns (ok: bool)
    requires forall i :: 0 <= i < |targets| ==> targets[i].Call?
    ensures ok <==> forall i :: 0 <= i < |targets| ==> Known(targets[i].args, known)
  {
    var t := 0;
    while t < |targets|
      invariant 0 <= t <= |targets|
      invariant forall u :: 0 <= u < t ==> Known(targets[u].args, known)
    {
      var a := 0;
      while a < |targets[t].args|
        invariant 0 <= a <= |targets[t].args|
        invariant forall c :: 0 <= c < a && targets[t].args[c].Ref? ==> targets[t].args[c].id in known
      {
        if targets[t].args[a].Ref? && targets[t].args[a].id !in known { return false; }
        a := a + 1;
      }
      t := t + 1;
    }
    return true;
  }

  /** Erasing the calls and renaming the uses of their results. */
  method EraseCalls(tail: seq<Op>, candidates: set<nat>, next: Id, gone: set<Id>) returns (rest: seq<Op>)
    ensures rest == Rest(tail, candidates, next, gone)
  {
    rest := [];
    var j := 0;
    while j < |tail|
      invariant 0 <= j <= |tail| && rest == Rest(tail[..j], candidates, next, gone)
    {
      assert tail[..j + 1][..j] == tail[..j];
      if !IsTarget(tail[j], candidates) { rest := rest + [RenameOp(tail[j], next, gone)]; }
      j := j + 1;
    }
    assert tail[..j] == tail;
  }

  /** The pass over one stage: collect its calls, check their operands, and rewrite or leave the body. */
  method ParallelizeStage(b: Body, params: set<Id>, candidates: set<nat>) returns (r: Body, done: bool)
    ensures done <==> Spawnable(b, params, candidates)
    ensures done ==> Parallelized(b, candidates, r)
    ensures !done ==> r == b
    ensures r == RewriteStage(b, params, candidates)
  {
    SpawnableExactly(b, params, candidates);
    if Targets(b.ops, candidates) != [] { SpawnedShape(b, candidates); }
    hide Spawnable, Parallelized;
    var targets, first := CollectTargets(b.ops, candidates);
    TargetsAreCalls(b.ops, candidates);
    if targets == [] { return b, false; }
    var ok := CheckOperands(targets, params + DefsOf(b.ops[..first]));
    if !ok { return b, false; }
    var gone := DefsOf(targets);
    var rest := EraseCalls(b.ops[first..], candidates, b.next, gone);
    r := Body(b.ops[..first] + [SpawnAwait(TasksFor(targets, b.next))] + LoadsFor(targets, b.next) + rest, Rename(b.result, b.next, gone), 3 * b.next);
    done := true;
  }
}
