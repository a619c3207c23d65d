/** The dispatch a pipeline function is given, and why its cost calls stay balanced on every run, re-entrant ones included. */
module DispatchBalance {
  import opened CostSamples

  /** `Invoke` calls a pipeline by name; `CallJit` calls the installed variant, whatever that runs. */
  datatype Op = Work(what: nat) | Invoke(pipeline: string) | CallJit | EmitSwitch | BeginCost(name: string) | EndCost(name: string)

  /** `Goto` lists the possible successors; `Leave` ends the block without a return. */
  datatype Terminator = Goto(targets: seq<nat>) | Return | Leave

  datatype Block = Block(ops: seq<Op>, term: Terminator)

  type Code = seq<Block>

  // ---------------------------------------------------------------- the rewrite

  /** The original blocks come after the new entry and the JIT path. */
  const SHIFT: nat := 2

  const JIT_PATH: nat := 1

  const AOT_ENTRY: nat := 2

  function PeDone(n: nat): nat { n + SHIFT }

  function PeEmit(n: nat): nat { n + SHIFT + 1 }

  function Shifted(targets: seq<nat>): (r: seq<nat>)
    ensures |r| == |targets|
  {
    seq(|targets|, i requires 0 <= i < |targets| => targets[i] + SHIFT)
  }

  /** An original block: a begin at the top of the first, an end before every return. */
  function AotBlock(code: Code, b: nat, name: string): Block
    requires b < |code|
  {
    Block((if b == 0 then [BeginCost(name)] else []) + code[b].ops + (if code[b].term.Return? then [EndCost(name)] else []),
          if code[b].term.Goto? then Goto(Shifted(code[b].term.targets)) else code[b].term)
  }

  /** Entry tests the dispatch pointer; the JIT path reports its first use and tail-calls. */
  function Instrument(code: Code, name: string): (r: Code)
    ensures |r| == |code| + 4
    ensures r[0] == Block([], Goto([JIT_PATH, AOT_ENTRY])) && r[1] == Block([], Goto([PeEmit(|code|), PeDone(|code|)]))
    ensures forall b {:trigger r[b]} :: 2 <= b < |code| + 2 ==> r[b] == AotBlock(code, b - 2, name)
    ensures r[|code| + 2] == Block([CallJit], Return) && r[|code| + 3] == Block([EmitSwitch], Goto([PeDone(|code|)]))
  {
    [Block([], Goto([JIT_PATH, AOT_ENTRY])), Block([], Goto([PeEmit(|code|), PeDone(|code|)]))]
    + seq(|code|, b requires 0 <= b < |code| => AotBlock(code, b, name))
    + [Block([CallJit], Return), Block([EmitSwitch], Goto([PeDone(|code|)]))]
  }

  /** The pass over a function with at least an entry block: dispatch blocks, the begin, then an end in each returning block not on the JIT path. */
  method InstrumentPipeline(code: Code, name: string) returns (r: Code)
    requires code != []
    ensures r == Instrument(code, name)
  {
    var n := |code|;
    r := [Block([], Goto([JIT_PATH, AOT_ENTRY])), Block([], Goto([PeEmit(n), PeDone(n)]))];
    var b := 0;
    while b < n
      invariant 0 <= b <= n && |r| == b + 2
      invariant r[..2] == [Block([], Goto([JIT_PATH, AOT_ENTRY])), Block([], Goto([PeEmit(n), PeDone(n)]))]
      invariant forall j {:trigger r[j]} :: 2 <= j < b + 2 ==> r[j] == Block(code[j - 2].ops, AotBlock(code, j - 2, name).term)
    {
      r := r + [Block(code[b].ops, if code[b].term.Goto? then Goto(Shifted(code[b].term.targets)) else code[b].term)];
      b := b + 1;
    }
    r := r + [Block([CallJit], Return), Block([EmitSwitch], Goto([PeDone(n)]))];
    r := r[AOT_ENTRY := r[AOT_ENTRY].(ops := [BeginCost(name)] + r[AOT_ENTRY].ops)];
    BeginAdded(code, name, r);
    var i := 0;
    while i < |r|
      invariant 0 <= i <= |r| == n + 4
      invariant r[0] == Block([], Goto([JIT_PATH, AOT_ENTRY])) && r[1] == Block([], Goto([PeEmit(n), PeDone(n)]))
      invariant r[n + 2] == Block([CallJit], Return) && r[n + 3] == Block([EmitSwitch], Goto([PeDone(n)]))
      invariant forall j {:trigger r[j]} :: 2 <= j < n + 2 ==> r[j] == if j < i then AotBlock(code, j - 2, name) else WithoutEnd(code, j - 2, name)
    {
      if i != JIT_PATH && i != PeDone(n) && r[i].term.Return? {
        assert 2 <= i < n + 2 && r[i] == WithoutEnd(code, i - 2, name);
        r := r[i := r[i].(ops := r[i].ops + [EndCost(name)])];
      } else if 2 <= i < n + 2 {
        assert r[i] == WithoutEnd(code, i - 2, name);
        assert r[i].ops + [] == r[i].ops;
      }
      i := i + 1;
    }
    assert r == Instrument(code, name);
  }

  lemma BeginAdded(code: Code, name: string, r: Code)
    requires code != [] && |r| == |code| + 4
    requires forall j :: 2 <= j < |code| + 2 ==> r[j].term == AotBlock(code, j - 2, name).term
    requires forall j :: 2 <= j < |code| + 2 ==> r[j].ops == if j == 2 then [BeginCost(name)] + code[j - 2].ops else code[j - 2].ops
    ensures forall j {:trigger r[j]} :: 2 <= j < |code| + 2 ==> r[j] == WithoutEnd(code, j - 2, name)
  {
    forall j {:trigger r[j]} | 2 <= j < |code| + 2 ensures r[j] == WithoutEnd(code, j - 2, name) {
      assert [] + code[j - 2].ops == code[j - 2].ops;
    }
  }

  function WithoutEnd(code: Code, b: nat, name: string): Block
    requires b < |code|
  {
    Block((if b == 0 then [BeginCost(name)] else []) + code[b].ops, AotBlock(code, b, name).term)
  }

  // ---------------------------------------------------------------- runs

  datatype CostCall = CostBegin(name: string) | CostEnd(name: string)

  /** A run made inside an operation: whether it returned, the cost calls it made, and the pipelines whose begins it left pending. */
  datatype Sub = Sub(pipeline: string, returned: bool, trace: seq<CostCall>, lost: multiset<string>)

  /** An operation executed, with the runs inside it. */
  datatype Step = Step(op: Op, subs: seq<Sub>)

  datatype Visit = Visit(block: nat, steps: seq<Step>)

  type Program = map<string, Code>

  /** An invocation is one run of that pipeline, the JIT variant any number of runs, anything else none. */
  predicate StepOk(st: Step) {
    && (st.op.Invoke? ==> |st.subs| == 1 && st.subs[0].pipeline == st.op.pipeline)
    && (!st.op.Invoke? && !st.op.CallJit? ==> st.subs == [])
  }

  predicate IsCostCall(op: Op) { op.BeginCost? || op.EndCost? }

  /** The block's operations from the first on, not necessarily all. */
  predicate VisitOk(code: Code, v: Visit) {
    && v.block < |code| && |v.steps| <= |code[v.block].ops|
    && forall i {:trigger v.steps[i]} :: 0 <= i < |v.steps| ==> v.steps[i].op == code[v.block].ops[i] && StepOk(v.steps[i])
  }

  predicate Complete(code: Code, v: Visit) { v.block < |code| && |v.steps| == |code[v.block].ops| }

  /** Unwinding starts at the end of a block that has no other way out, or at an operation that throws; cost calls do not. */
  predicate Unwinds(code: Code, v: Visit) {
    || (Complete(code, v) && code[v.block].term.Leave?)
    || (v.steps != [] && !IsCostCall(v.steps[|v.steps| - 1].op))
  }

  /** From the entry along branches to a return, or to where the run is unwound. */
  predicate PathOk(code: Code, visits: seq<Visit>, returned: bool) {
    && visits != [] && visits[0].block == 0
    && (forall i {:trigger visits[i]} :: 0 <= i < |visits| ==> VisitOk(code, visits[i]))
    && (forall i {:trigger visits[i]} :: 0 <= i < |visits| - 1 ==>
          Complete(code, visits[i]) && code[visits[i].block].term.Goto? && visits[i + 1].block in code[visits[i].block].term.targets)
    && var last := visits[|visits| - 1];
       if returned then Complete(code, last) && code[last.block].term.Return? else Unwinds(code, last)
  }

  function SubsTrace(subs: seq<Sub>): seq<CostCall> {
    if subs == [] then [] else SubsTrace(subs[..|subs| - 1]) + subs[|subs| - 1].trace
  }

  function SubsLost(subs: seq<Sub>): multiset<string> {
    if subs == [] then multiset{} else SubsLost(subs[..|subs| - 1]) + subs[|subs| - 1].lost
  }

  function StepTrace(st: Step): seq<CostCall> {
    match st.op
    case BeginCost(n) => [CostBegin(n)]
    case EndCost(n) => [CostEnd(n)]
    case _ => SubsTrace(st.subs)
  }

  function StepsTrace(steps: seq<Step>): seq<CostCall> {
    if steps == [] then [] else StepsTrace(steps[..|steps| - 1]) + StepTrace(steps[|steps| - 1])
  }

  function StepsLost(steps: seq<Step>): multiset<string> {
    if steps == [] then multiset{} else StepsLost(steps[..|steps| - 1]) + SubsLost(steps[|steps| - 1].subs)
  }

  /** The cost calls of a run in order. */
  function VisitsTrace(visits: seq<Visit>): seq<CostCall> {
    if visits == [] then [] else VisitsTrace(visits[..|visits| - 1]) + StepsTrace(visits[|visits| - 1].steps)
  }

  /** The pipelines whose begins the runs inside left pending, each as often as it did. */
  function VisitsLost(visits: seq<Visit>): multiset<string> {
    if visits == [] then multiset{} else VisitsLost(visits[..|visits| - 1]) + StepsLost(visits[|visits| - 1].steps)
  }

  /** A run that is unwound off the JIT path leaves its own begin pending too. */
  function Lost(p: string, visits: seq<Visit>, returned: bool): multiset<string> {
    VisitsLost(visits) + if !returned && |visits| > 1 && visits[1].block == AOT_ENTRY then multiset{p} else multiset{}
  }

  ghost predicate SubsRun(program: Program, subs: seq<Sub>, depth: nat)
    decreases depth, 0
  {
    subs != [] ==> depth > 0 && forall i {:trigger subs[i]} :: 0 <= i < |subs| ==> IsRun(program, subs[i], depth - 1)
  }

  ghost predicate StepsRun(program: Program, steps: seq<Step>, depth: nat)
    decreases depth, 1
  {
    forall i {:trigger steps[i]} :: 0 <= i < |steps| ==> SubsRun(program, steps[i].subs, depth)
  }

  /** These visits are a run of the instrumented pipeline, whose inner runs nest less than this deep. */
  ghost predicate RunsAs(program: Program, p: string, depth: nat, visits: seq<Visit>, returned: bool)
    decreases depth, 2
  {
    && p in program && PathOk(Instrument(program[p], p), visits, returned)
    && forall i {:trigger visits[i]} :: 0 <= i < |visits| ==> StepsRun(program, visits[i].steps, depth)
  }

  ghost predicate IsRun(program: Program, run: Sub, depth: nat)
    decreases depth, 3
  {
    exists visits :: RunsAs(program, run.pipeline, depth, visits, run.returned) && run.trace == VisitsTrace(visits)
                     && run.lost == Lost(run.pipeline, visits, run.returned)
  }

  // ---------------------------------------------------------------- the runtime's pending stack

  function OnCall(pending: seq<Pending>, call: CostCall, now: nat): seq<Pending> {
    match call
    case CostBegin(n) => pending + [Pending(n, now)]
    case CostEnd(n) => AfterEnd(pending, n)
  }

  /** The calls against a thread's pending stack, one tick apart. */
  function Replay(pending: seq<Pending>, trace: seq<CostCall>, clock: nat): seq<Pending> {
    if trace == [] then pending
    else OnCall(Replay(pending, trace[..|trace| - 1], clock), trace[|trace| - 1], clock + |trace| - 1)
  }

  function Names(pending: seq<Pending>): multiset<string> {
    if pending == [] then multiset{} else Names(pending[..|pending| - 1]) + multiset{pending[|pending| - 1].name}
  }

  /** The stack has what it had, and above that begins of exactly these names. */
  predicate Above(pending: seq<Pending>, after: seq<Pending>, lost: multiset<string>) {
    |pending| <= |after| && after[..|pending|] == pending && Names(after[|pending|..]) == lost
  }

  /** Whatever stack it meets, the trace adds begins of these names. */
  ghost predicate Leaves(trace: seq<CostCall>, lost: multiset<string>) {
    forall pending, clock: nat {:trigger Replay(pending, trace, clock)} :: Above(pending, Replay(pending, trace, clock), lost)
  }

  lemma {:induction false} ReplayConcat(pending: seq<Pending>, a: seq<CostCall>, b: seq<CostCall>, clock: nat)
    ensures Replay(pending, a + b, clock) == Replay(Replay(pending, a, clock), b, clock + |a|)
  {
    hide OnCall;
    if b == [] {
      assert a + b == a;
    } else {
      assert (a + b)[..|a + b| - 1] == a + b[..|b| - 1];
      ReplayConcat(pending, a, b[..|b| - 1], clock);
    }
  }

  lemma {:induction false} NamesConcat(a: seq<Pending>, b: seq<Pending>)
    ensures Names(a + b) == Names(a) + Names(b)
  {
    if b == [] {
      assert a + b == a;
    } else {
      assert (a + b)[..|a + b| - 1] == a + b[..|b| - 1];
      NamesConcat(a, b[..|b| - 1]);
    }
  }

  lemma NamesOne(b: Pending)
    ensures Names([b]) == multiset{b.name}
  {
    assert [b][..0] == [];
    assert Names([]) == multiset{};
  }

  lemma NamesErase(pending: seq<Pending>, i: nat)
    requires i < |pending|
    ensures Names(Erase(pending, i)) + multiset{pending[i].name} == Names(pending)
  {
    hide Names;
    var a, x, b := pending[..i], pending[i], pending[i + 1..];
    assert pending == a + [x] + b;
    NamesConcat(a, [x]);
    NamesConcat(a + [x], b);
    NamesConcat(a, b);
    NamesOne(x);
  }

  lemma AboveTwice(a: seq<Pending>, b: seq<Pending>, c: seq<Pending>, la: multiset<string>, lb: multiset<string>)
    requires Above(a, b, la) && Above(b, c, lb)
    ensures Above(a, c, la + lb)
  {
    hide Names;
    assert c[|a|..] == b[|a|..] + c[|b|..];
    NamesConcat(b[|a|..], c[|b|..]);
  }

  lemma LeavesMeans(trace: seq<CostCall>, lost: multiset<string>, pending: seq<Pending>, clock: nat)
    requires Leaves(trace, lost)
    ensures Above(pending, Replay(pending, trace, clock), lost)
  {}

  lemma LeavesConcat(a: seq<CostCall>, la: multiset<string>, b: seq<CostCall>, lb: multiset<string>)
    requires Leaves(a, la) && Leaves(b, lb)
    ensures Leaves(a + b, la + lb)
  {
    hide Replay, Above;
    forall pending, clock: nat {:trigger Replay(pending, a + b, clock)} ensures Above(pending, Replay(pending, a + b, clock), la + lb) {
      ReplayConcat(pending, a, b, clock);
      LeavesMeans(a, la, pending, clock);
      LeavesMeans(b, lb, Replay(pending, a, clock), clock + |a|);
      AboveTwice(pending, Replay(pending, a, clock), Replay(pending, a + b, clock), la, lb);
    }
  }

  lemma EmptyLeaves()
    ensures Leaves([], multiset{})
  {
    forall pending: seq<Pending> ensures Above(pending, pending, multiset{}) {
      assert pending[|pending|..] == [];
    }
  }

  lemma BeginLeaves(name: string)
    ensures Leaves([CostBegin(name)], multiset{name})
  {
    forall pending, clock: nat {:trigger Replay(pending, [CostBegin(name)], clock)}
      ensures Above(pending, Replay(pending, [CostBegin(name)], clock), multiset{name})
    {
      assert [CostBegin(name)][..0] == [];
      assert Replay(pending, [], clock) == pending;
      assert (pending + [Pending(name, clock)])[|pending|..] == [Pending(name, clock)];
      NamesOne(Pending(name, clock));
    }
  }

  /** An end of the name takes a begin at or above the one it belongs to. */
  lemma EndTakes(pending: seq<Pending>, own: Pending, before: seq<Pending>, lost: multiset<string>)
    requires Above(pending + [own], before, lost)
    ensures |pending| <= LastBegin(before, own.name) < |before| && before[|pending|] == own && before[..|pending|] == pending
    ensures LastBegin(before, own.name) == |pending| <==> own.name !in lost
    ensures Above(pending, AfterEnd(before, own.name), lost)
  {
    hide Names, LastBegin, Erase, Above;
    var top := EndParts(pending, own, before, lost);
    EndIndex(pending, own, top);
    var i := LastBegin(before, own.name) - |pending|;
    assert before == pending + ([own] + top);
    EndLost(own, top, i);
    ErasedAbove(pending, [own] + top, i);
    OnTop(pending, Erase([own] + top, i), lost);
  }

  lemma OnTop(pending: seq<Pending>, top: seq<Pending>, lost: multiset<string>)
    requires Names(top) == lost
    ensures Above(pending, pending + top, lost)
  {
    hide Names;
    assert (pending + top)[|pending|..] == top;
  }

  lemma EndParts(pending: seq<Pending>, own: Pending, before: seq<Pending>, lost: multiset<string>) returns (top: seq<Pending>)
    requires Above(pending + [own], before, lost)
    ensures before == pending + [own] + top && Names(top) == lost
  {
    hide Names;
    top := before[|pending| + 1..];
    assert before[..|pending| + 1] == pending + [own];
  }

  lemma EndLost(own: Pending, top: seq<Pending>, i: nat)
    requires i <= |top| && ([own] + top)[i].name == own.name
    ensures Names(Erase([own] + top, i)) == Names(top)
  {
    hide Names, Erase;
    NamesErase([own] + top, i);
    NamesConcat([own], top);
    NamesOne(own);
    Cancel(Names(Erase([own] + top, i)), Names(top), own.name);
  }

  lemma Cancel(a: multiset<string>, b: multiset<string>, n: string)
    requires a + multiset{n} == multiset{n} + b
    ensures a == b
  {
    forall x ensures a[x] == b[x] {
      assert (a + multiset{n})[x] == (multiset{n} + b)[x];
    }
  }

  lemma EndIndex(pending: seq<Pending>, own: Pending, top: seq<Pending>)
    ensures var before := pending + [own] + top;
            && |pending| <= LastBegin(before, own.name) < |before|
            && (LastBegin(before, own.name) == |pending| <==> own.name !in Names(top))
            && ([own] + top)[LastBegin(before, own.name) - |pending|].name == own.name
  {
    hide Names;
    var n, before := |pending|, pending + [own] + top;
    assert before[n] == own;
    if own.name in Names(top) {
      var k := NamedIndex(top, own.name);
      assert before[n + 1 + k] == top[k];
    } else {
      forall k | n < k < |before| ensures before[k].name != own.name {
        NotNamed(top, own.name, k - n - 1);
        assert before[k] == top[k - n - 1];
      }
    }
  }

  lemma ErasedAbove(pending: seq<Pending>, above: seq<Pending>, i: nat)
    requires i < |above|
    ensures Erase(pending + above, |pending| + i) == pending + Erase(above, i)
  {}

  lemma {:induction false} NamedIndex(pending: seq<Pending>, name: string) returns (k: nat)
    requires name in Names(pending)
    ensures k < |pending| && pending[k].name == name
  {
    if pending[|pending| - 1].name == name {
      k := |pending| - 1;
    } else {
      k := NamedIndex(pending[..|pending| - 1], name);
    }
  }

  lemma {:induction false} NotNamed(pending: seq<Pending>, name: string, k: nat)
    requires name !in Names(pending) && k < |pending|
    ensures pending[k].name != name
  {
    if k < |pending| - 1 { NotNamed(pending[..|pending| - 1], name, k); }
  }

  lemma BeginThen(name: string, inner: seq<CostCall>, lost: multiset<string>, pending: seq<Pending>, clock: nat)
    requires Leaves(inner, lost)
    ensures Above(pending + [Pending(name, clock)], Replay(pending, [CostBegin(name)] + inner, clock), lost)
  {
    hide Above, Leaves;
    assert [CostBegin(name)][..0] == [];
    assert Replay(pending, [], clock) == pending;
    ReplayConcat(pending, [CostBegin(name)], inner, clock);
    LeavesMeans(inner, lost, pending + [Pending(name, clock)], clock + 1);
  }

  /** A begin, calls that leave some begins, and the end of the begin's name leave those begins. */
  lemma LeavesWrap(name: string, inner: seq<CostCall>, lost: multiset<string>)
    requires Leaves(inner, lost)
    ensures Leaves([CostBegin(name)] + inner + [CostEnd(name)], lost)
  {
    hide Above;
    var trace := [CostBegin(name)] + inner + [CostEnd(name)];
    assert trace[..|trace| - 1] == [CostBegin(name)] + inner;
    forall pending, clock: nat {:trigger Replay(pending, trace, clock)} ensures Above(pending, Replay(pending, trace, clock), lost) {
      BeginThen(name, inner, lost, pending, clock);
      EndTakes(pending, Pending(name, clock), Replay(pending, [CostBegin(name)] + inner, clock), lost);
    }
  }

  // ---------------------------------------------------------------- own calls

  /** Code before instrumentation: no cost calls, no branch to the entry or out of the function. */
  predicate Uninstrumented(code: Code) {
    && (forall b {:trigger code[b]} :: 0 <= b < |code| ==> NoCostCalls(code[b].ops))
    && (forall b, t {:trigger t in code[b].term.targets} :: 0 <= b < |code| && code[b].term.Goto? && t in code[b].term.targets ==> 0 < t < |code|)
  }

  predicate NoCostCalls(ops: seq<Op>) {
    forall k {:trigger ops[k]} :: 0 <= k < |ops| ==> !ops[k].BeginCost? && !ops[k].EndCost?
  }

  ghost predicate ProgramOk(program: Program) {
    forall p {:trigger program[p]} :: p in program ==> program[p] != [] && Uninstrumented(program[p])
  }

  lemma {:induction false} StepsConcat(a: seq<Step>, b: seq<Step>)
    ensures StepsTrace(a + b) == StepsTrace(a) + StepsTrace(b)
  {
    hide StepTrace;
    if b == [] {
      assert a + b == a;
    } else {
      assert (a + b)[..|a + b| - 1] == a + b[..|b| - 1];
      StepsConcat(a, b[..|b| - 1]);
    }
  }

  lemma {:induction false} StepsLostConcat(a: seq<Step>, b: seq<Step>)
    ensures StepsLost(a + b) == StepsLost(a) + StepsLost(b)
  {
    hide SubsLost;
    if b == [] {
      assert a + b == a;
    } else {
      assert (a + b)[..|a + b| - 1] == a + b[..|b| - 1];
      StepsLostConcat(a, b[..|b| - 1]);
    }
  }

  /** All runs of this depth add to the stack the begins they lose. */
  ghost predicate RunsLeave(program: Program, depth: nat) {
    forall run {:trigger IsRun(program, run, depth)} :: IsRun(program, run, depth) ==> Leaves(run.trace, run.lost)
  }

  ghost predicate Below(program: Program, depth: nat) { depth > 0 ==> RunsLeave(program, depth - 1) }

  lemma {:induction false} SubsLeave(program: Program, subs: seq<Sub>, depth: nat)
    requires SubsRun(program, subs, depth) && Below(program, depth)
    ensures Leaves(SubsTrace(subs), SubsLost(subs))
  {
    hide Leaves, IsRun;
    if subs == [] {
      EmptyLeaves();
    } else {
      var init, last := subs[..|subs| - 1], subs[|subs| - 1];
      forall i {:trigger init[i]} | 0 <= i < |init| ensures IsRun(program, init[i], depth - 1) { assert init[i] == subs[i]; }
      SubsLeave(program, init, depth);
      assert IsRun(program, last, depth - 1);
      LeavesConcat(SubsTrace(init), SubsLost(init), last.trace, last.lost);
    }
  }

  ghost predicate NoCostSteps(steps: seq<Step>) {
    forall i {:trigger steps[i]} :: 0 <= i < |steps| ==> !IsCostCall(steps[i].op)
  }

  /** Operations that are no cost calls only make the calls of the runs inside them. */
  lemma {:induction false} StepsLeave(program: Program, steps: seq<Step>, depth: nat)
    requires NoCostSteps(steps) && StepsRun(program, steps, depth) && Below(program, depth)
    ensures Leaves(StepsTrace(steps), StepsLost(steps))
  {
    hide Leaves, SubsRun, Below;
    if steps == [] {
      EmptyLeaves();
    } else {
      var init, last := steps[..|steps| - 1], steps[|steps| - 1];
      forall i {:trigger init[i]} | 0 <= i < |init| ensures SubsRun(program, init[i].subs, depth) && !IsCostCall(init[i].op) {
        assert init[i] == steps[i];
      }
      StepsLeave(program, init, depth);
      assert SubsRun(program, last.subs, depth) && !IsCostCall(last.op);
      SubsLeave(program, last.subs, depth);
      LeavesConcat(StepsTrace(init), StepsLost(init), StepTrace(last), SubsLost(last.subs));
    }
  }

  // ---------------------------------------------------------------- runs are balanced

  /** The cost calls around a visit's own: a begin if it starts at the original entry, an end if it got to one. */
  function Opening(name: string, v: Visit): seq<CostCall> { if v.block == AOT_ENTRY then [CostBegin(name)] else [] }

  function Closing(code: Code, name: string, v: Visit): seq<CostCall>
    requires AOT_ENTRY <= v.block < |code| + 2
  {
    if code[v.block - 2].term.Return? && Complete(Instrument(code, name), v) then [CostEnd(name)] else []
  }

  /** Steps that are a begin if `first`, then n without cost calls, then an end if `last`. */
  lemma WrappedSteps(program: Program, steps: seq<Step>, first: bool, n: nat, last: bool, name: string, depth: nat) returns (middle: seq<CostCall>)
    requires |steps| == (if first then 1 else 0) + n + (if last then 1 else 0)
    requires (first ==> steps[0].op == BeginCost(name) && steps[0].subs == [])
    requires (last ==> steps[|steps| - 1].op == EndCost(name) && steps[|steps| - 1].subs == [])
    requires forall k {:trigger steps[k]} :: (if first then 1 else 0) <= k < (if first then 1 else 0) + n ==> !IsCostCall(steps[k].op)
    requires StepsRun(program, steps, depth) && Below(program, depth)
    ensures Leaves(middle, StepsLost(steps))
    ensures StepsTrace(steps) == (if first then [CostBegin(name)] else []) + middle + (if last then [CostEnd(name)] else [])
  {
    hide SubsRun, Below, Leaves, StepsTrace, StepsLost, StepTrace, SubsLost;
    var i := if first then 1 else 0;
    var x, y, z := steps[..i], steps[i..i + n], steps[i + n..];
    middle := StepsTrace(y);
    forall k {:trigger y[k]} | 0 <= k < |y| ensures SubsRun(program, y[k].subs, depth) && !IsCostCall(y[k].op) {
      assert y[k] == steps[i + k];
    }
    StepsLeave(program, y, depth);
    EdgeTrace(x, BeginCost(name), CostBegin(name));
    EdgeTrace(z, EndCost(name), CostEnd(name));
    Cut(steps, i, i + n);
    CutTrace(steps, x, y, z);
  }

  lemma CutTrace(steps: seq<Step>, x: seq<Step>, y: seq<Step>, z: seq<Step>)
    requires steps == x + y + z && StepsLost(x) == StepsLost(z) == multiset{}
    ensures StepsTrace(steps) == StepsTrace(x) + StepsTrace(y) + StepsTrace(z) && StepsLost(steps) == StepsLost(y)
  {
    hide StepsTrace, StepsLost;
    StepsConcat(x + y, z);
    StepsConcat(x, y);
    StepsLostConcat(x + y, z);
    StepsLostConcat(x, y);
    assert multiset{} + StepsLost(y) + multiset{} == StepsLost(y);
  }

  lemma Cut(steps: seq<Step>, i: nat, j: nat)
    requires i <= j <= |steps|
    ensures steps == steps[..i] + steps[i..j] + steps[j..]
  {}

  lemma EdgeTrace(steps: seq<Step>, op: Op, call: CostCall)
    requires |steps| <= 1 && (|steps| == 1 ==> steps[0].op == op && steps[0].subs == [])
    requires (op.BeginCost? && call == CostBegin(op.name)) || (op.EndCost? && call == CostEnd(op.name))
    ensures StepsTrace(steps) == if |steps| == 1 then [call] else []
    ensures StepsLost(steps) == multiset{}
  {
    SingleStep(steps);
  }

  /** An original block's calls: its begin if it is the first, those of the runs inside, and its end if it returns. */
  lemma AotVisit(program: Program, code: Code, name: string, v: Visit, depth: nat) returns (middle: seq<CostCall>)
    requires Uninstrumented(code) && AOT_ENTRY <= v.block < |code| + 2 && VisitOk(Instrument(code, name), v)
    requires v.block == AOT_ENTRY ==> v.steps != []
    requires StepsRun(program, v.steps, depth) && Below(program, depth)
    ensures Leaves(middle, StepsLost(v.steps)) && StepsTrace(v.steps) == Opening(name, v) + middle + Closing(code, name, v)
  {
    hide StepsRun, Below, Leaves, Uninstrumented, StepsTrace, StepsLost;
    var block := AotBlock(code, v.block - 2, name);
    var ops := code[v.block - 2].ops;
    assert Instrument(code, name)[v.block] == block;
    hide Instrument;
    PlainBlock(code, v.block - 2);
    var first, last := v.block == AOT_ENTRY, code[v.block - 2].term.Return? && |v.steps| == |block.ops|;
    var i := if first then 1 else 0;
    forall k {:trigger v.steps[k]} | i <= k < |v.steps| - (if last then 1 else 0) ensures !IsCostCall(v.steps[k].op) {
      assert block.ops[k] == ops[k - i];
    }
    if first { assert v.steps[0].op == block.ops[0] && StepOk(v.steps[0]); }
    if last { assert v.steps[|v.steps| - 1].op == block.ops[|block.ops| - 1] && StepOk(v.steps[|v.steps| - 1]); }
    middle := WrappedSteps(program, v.steps, first, |v.steps| - i - (if last then 1 else 0), last, name, depth);
  }

  lemma PlainBlock(code: Code, b: nat)
    requires Uninstrumented(code) && b < |code|
    ensures NoCostCalls(code[b].ops)
  {}

  lemma SingleStep(steps: seq<Step>)
    ensures |steps| == 0 ==> StepsTrace(steps) == [] && StepsLost(steps) == multiset{}
    ensures |steps| == 1 ==> StepsTrace(steps) == StepTrace(steps[0]) && StepsLost(steps) == SubsLost(steps[0].subs)
  {
    if |steps| == 1 {
      assert steps[..0] == [];
      assert [] + StepTrace(steps[0]) == StepTrace(steps[0]);
    }
  }

  ghost predicate InRegion(code: Code, first: nat, i: nat, block: nat) {
    && (first == JIT_PATH || first == AOT_ENTRY)
    && (first == JIT_PATH ==> block in {JIT_PATH, PeDone(|code|), PeEmit(|code|)})
    && (first == AOT_ENTRY ==> if i == 1 then block == AOT_ENTRY else AOT_ENTRY < block < |code| + 2)
  }

  lemma RegionStep(code: Code, name: string, first: nat, i: nat, block: nat, next: nat)
    requires Uninstrumented(code) && InRegion(code, first, i, block) && i >= 1 && block < |code| + 4
    requires Instrument(code, name)[block].term.Goto? && next in Instrument(code, name)[block].term.targets
    ensures InRegion(code, first, i + 1, next)
  {
    hide Instrument;
    if first == AOT_ENTRY {
      var b := block - 2;
      assert Instrument(code, name)[block] == AotBlock(code, b, name);
      var t :| 0 <= t < |code[b].term.targets| && Shifted(code[b].term.targets)[t] == next;
      assert code[b].term.targets[t] in code[b].term.targets;
    }
  }

  /** After the entry a path stays on the JIT blocks or, past the original entry, on the other original blocks. */
  lemma {:induction false} PathRegion(code: Code, name: string, visits: seq<Visit>, returned: bool, i: nat)
    requires code != [] && Uninstrumented(code) && PathOk(Instrument(code, name), visits, returned) && 1 <= i < |visits|
    ensures InRegion(code, visits[1].block, i, visits[i].block)
  {
    hide Instrument, Uninstrumented;
    PathStep(Instrument(code, name), visits, returned, i - 1);
    if i > 1 {
      PathRegion(code, name, visits, returned, i - 1);
      hide InRegion, PathOk;
      RegionStep(code, name, visits[1].block, i - 1, visits[i - 1].block, visits[i].block);
    }
  }

  lemma PathStep(code: Code, visits: seq<Visit>, returned: bool, i: nat)
    requires PathOk(code, visits, returned) && i < |visits| - 1
    ensures visits[i].block < |code| && code[visits[i].block].term.Goto? && visits[i + 1].block in code[visits[i].block].term.targets
    ensures Complete(code, visits[i])
  {
    assert VisitOk(code, visits[i]);
  }

  lemma PathVisit(code: Code, visits: seq<Visit>, returned: bool, i: nat)
    requires PathOk(code, visits, returned) && i < |visits|
    ensures VisitOk(code, visits[i])
  {}

  lemma PathLonger(code: Code, name: string, visits: seq<Visit>, returned: bool)
    requires PathOk(Instrument(code, name), visits, returned)
    ensures |visits| >= 2 && visits[0].steps == []
  {
    assert VisitOk(Instrument(code, name), visits[0]);
  }

  /** On the JIT path the first i visits leave what the runs inside lose. */
  lemma {:induction false} JitPrefix(program: Program, p: string, depth: nat, visits: seq<Visit>, returned: bool, i: nat)
    requires ProgramOk(program) && RunsAs(program, p, depth, visits, returned) && Below(program, depth)
    requires i <= |visits| && 1 < |visits| && visits[1].block == JIT_PATH
    ensures Leaves(VisitsTrace(visits[..i]), VisitsLost(visits[..i]))
  {
    hide Leaves, Below, StepsRun, PathOk, Instrument, Uninstrumented, VisitOk;
    if i == 0 {
      EmptyLeaves();
    } else {
      JitPrefix(program, p, depth, visits, returned, i - 1);
      assert visits[..i][..i - 1] == visits[..i - 1];
      var v := visits[i - 1];
      assert StepsRun(program, v.steps, depth);
      JitSteps(program[p], p, visits, returned, i - 1);
      StepsLeave(program, v.steps, depth);
      LeavesConcat(VisitsTrace(visits[..i - 1]), VisitsLost(visits[..i - 1]), StepsTrace(v.steps), StepsLost(v.steps));
    }
  }

  lemma JitSteps(code: Code, name: string, visits: seq<Visit>, returned: bool, i: nat)
    requires code != [] && Uninstrumented(code) && PathOk(Instrument(code, name), visits, returned) && i < |visits|
    requires 1 < |visits| && visits[1].block == JIT_PATH
    ensures NoCostSteps(visits[i].steps)
  {
    PathVisit(Instrument(code, name), visits, returned, i);
    if i > 0 { PathRegion(code, name, visits, returned, i); }
    hide Instrument, PathOk, Uninstrumented;
  }

  /** On the original path they are one begin and what the runs inside call; the last visit of a run that returns adds one end. */
  lemma {:induction false} AotPrefix(program: Program, p: string, depth: nat, visits: seq<Visit>, returned: bool, i: nat) returns (inner: seq<CostCall>)
    requires ProgramOk(program) && RunsAs(program, p, depth, visits, returned) && Below(program, depth)
    requires 2 <= i <= |visits| && visits[1].block == AOT_ENTRY
    ensures Leaves(inner, VisitsLost(visits[..i]))
    ensures VisitsTrace(visits[..i]) == [CostBegin(p)] + inner + (if returned && i == |visits| then [CostEnd(p)] else [])
  {
    hide Leaves, Below, RunsAs, ProgramOk, StepsTrace, StepsLost, VisitsTrace, VisitsLost;
    var v, closing := visits[i - 1], if returned && i == |visits| then [CostEnd(p)] else [];
    var middle := AotPiece(program, p, depth, visits, returned, i - 1);
    PrefixMore(visits, i);
    if i == 2 {
      inner := middle;
      EntryTrace(program, p, depth, visits, returned);
      JoinTraces([], [], [CostBegin(p)], middle, closing);
      assert multiset{} + StepsLost(v.steps) == StepsLost(v.steps);
    } else {
      var before := AotPrefix(program, p, depth, visits, returned, i - 1);
      inner := before + middle;
      JoinTraces([CostBegin(p)], before, [], middle, closing);
      LeavesConcat(before, VisitsLost(visits[..i - 1]), middle, StepsLost(v.steps));
    }
  }

  lemma {:induction false} AotPiece(program: Program, p: string, depth: nat, visits: seq<Visit>, returned: bool, i: nat) returns (middle: seq<CostCall>)
    requires ProgramOk(program) && RunsAs(program, p, depth, visits, returned) && Below(program, depth)
    requires 1 <= i < |visits| && visits[1].block == AOT_ENTRY
    ensures Leaves(middle, StepsLost(visits[i].steps))
    ensures StepsTrace(visits[i].steps)
         == (if i == 1 then [CostBegin(p)] else []) + middle + (if returned && i == |visits| - 1 then [CostEnd(p)] else [])
  {
    hide Leaves, Below, StepsRun, PathOk, Instrument, Uninstrumented, VisitOk, StepsTrace, StepsLost, Complete, RunsAs, ProgramOk;
    RunParts(program, p, depth, visits, returned, i);
    var code := program[p];
    AotWhere(code, p, visits, returned, i);
    hide Opening, Closing;
    middle := AotVisit(program, code, p, visits[i], depth);
    AotEdges(code, p, visits, returned, i);
  }

  lemma {:induction false} AotWhere(code: Code, p: string, visits: seq<Visit>, returned: bool, i: nat)
    requires code != [] && Uninstrumented(code) && PathOk(Instrument(code, p), visits, returned)
    requires 1 <= i < |visits| && visits[1].block == AOT_ENTRY
    ensures AOT_ENTRY <= visits[i].block < |code| + 2 && VisitOk(Instrument(code, p), visits[i])
    ensures visits[i].block == AOT_ENTRY <==> i == 1
    ensures visits[i].block == AOT_ENTRY ==> visits[i].steps != []
  {
    hide PathOk, Instrument, Uninstrumented, VisitOk;
    PathRegion(code, p, visits, returned, i);
    PathVisit(Instrument(code, p), visits, returned, i);
    AotBegins(code, p, visits, returned, i);
  }

  lemma {:induction false} AotEdges(code: Code, p: string, visits: seq<Visit>, returned: bool, i: nat)
    requires code != [] && Uninstrumented(code) && PathOk(Instrument(code, p), visits, returned)
    requires 1 <= i < |visits| && visits[1].block == AOT_ENTRY && AOT_ENTRY <= visits[i].block < |code| + 2
    ensures Opening(p, visits[i]) == if i == 1 then [CostBegin(p)] else []
    ensures Closing(code, p, visits[i]) == if returned && i == |visits| - 1 then [CostEnd(p)] else []
  {
    hide PathOk, Instrument, Uninstrumented, VisitOk, Complete;
    AotWhere(code, p, visits, returned, i);
    AotReturns(code, p, visits, returned, i);
  }

  lemma JoinTraces(a: seq<CostCall>, b: seq<CostCall>, c: seq<CostCall>, d: seq<CostCall>, e: seq<CostCall>)
    ensures a == [] == b ==> a + b + (c + d + e) == c + d + e
    ensures c == [] ==> (a + b + []) + (c + d + e) == a + (b + d) + e
  {}

  lemma RunParts(program: Program, p: string, depth: nat, visits: seq<Visit>, returned: bool, i: nat)
    requires ProgramOk(program) && RunsAs(program, p, depth, visits, returned) && i < |visits|
    ensures p in program && program[p] != [] && Uninstrumented(program[p]) && PathOk(Instrument(program[p], p), visits, returned)
    ensures StepsRun(program, visits[i].steps, depth)
  {}

  lemma PrefixMore(visits: seq<Visit>, i: nat)
    requires 0 < i <= |visits|
    ensures VisitsTrace(visits[..i]) == VisitsTrace(visits[..i - 1]) + StepsTrace(visits[i - 1].steps)
    ensures VisitsLost(visits[..i]) == VisitsLost(visits[..i - 1]) + StepsLost(visits[i - 1].steps)
  {
    assert visits[..i][..i - 1] == visits[..i - 1];
  }

  lemma EntryTrace(program: Program, p: string, depth: nat, visits: seq<Visit>, returned: bool)
    requires RunsAs(program, p, depth, visits, returned)
    ensures |visits| > 1 && VisitsTrace(visits[..1]) == [] && VisitsLost(visits[..1]) == multiset{}
  {
    PathLonger(program[p], p, visits, returned);
    assert visits[..1][..0] == [];
    EmptyTraces();
  }

  /** The begin is executed before anything can throw. */
  lemma AotBegins(code: Code, name: string, visits: seq<Visit>, returned: bool, i: nat)
    requires PathOk(Instrument(code, name), visits, returned) && i < |visits| && AOT_ENTRY <= visits[i].block < |code| + 2
    ensures visits[i].block == AOT_ENTRY ==> visits[i].steps != []
  {
    if visits[i].block == AOT_ENTRY {
      assert Instrument(code, name)[AOT_ENTRY] == AotBlock(code, 0, name);
      hide Instrument;
      assert |Instrument(code, name)[AOT_ENTRY].ops| > 0;
      if i < |visits| - 1 { PathStep(Instrument(code, name), visits, returned, i); }
    }
  }

  /** The end is executed exactly by the last visit of a run that returns. */
  lemma AotReturns(code: Code, name: string, visits: seq<Visit>, returned: bool, i: nat)
    requires PathOk(Instrument(code, name), visits, returned) && i < |visits| && AOT_ENTRY <= visits[i].block < |code| + 2
    ensures code[visits[i].block - 2].term.Return? && Complete(Instrument(code, name), visits[i]) <==> returned && i == |visits| - 1
  {
    hide Unwinds, Instrument, VisitOk;
    var r := Instrument(code, name);
    PathVisit(r, visits, returned, i);
    AotTerm(code, name, visits[i].block);
    EndIsLast(code, name, visits[i].block);
    if i < |visits| - 1 {
      PathStep(r, visits, returned, i);
    } else if !returned && Complete(r, visits[i]) && r[visits[i].block].term.Return? {
      NotUnwinding(r, visits[i]);
    }
  }

  lemma NotUnwinding(code: Code, v: Visit)
    requires VisitOk(code, v) && Complete(code, v) && code[v.block].term.Return?
    requires var ops := code[v.block].ops; ops != [] && IsCostCall(ops[|ops| - 1])
    ensures !Unwinds(code, v)
  {
    assert v.steps[|v.steps| - 1].op == code[v.block].ops[|v.steps| - 1];
  }

  lemma EndIsLast(code: Code, name: string, block: nat)
    requires AOT_ENTRY <= block < |code| + 2
    ensures var ops := Instrument(code, name)[block].ops;
            Instrument(code, name)[block].term.Return? ==> ops != [] && IsCostCall(ops[|ops| - 1])
  {
    assert Instrument(code, name)[block] == AotBlock(code, block - 2, name);
  }

  lemma AotTerm(code: Code, name: string, block: nat)
    requires AOT_ENTRY <= block < |code| + 2
    ensures Instrument(code, name)[block].term.Goto? <==> code[block - 2].term.Goto?
    ensures Instrument(code, name)[block].term.Return? <==> code[block - 2].term.Return?
  {
    hide Instrument;
    assert Instrument(code, name)[block] == AotBlock(code, block - 2, name);
  }

  /** A run that takes the JIT path makes no cost call; any other makes one begin first and, if it returns, one end last. */
  lemma RunShape(program: Program, p: string, depth: nat, visits: seq<Visit>, returned: bool) returns (inner: seq<CostCall>)
    requires ProgramOk(program) && RunsAs(program, p, depth, visits, returned) && Below(program, depth)
    ensures |visits| > 1 && (visits[1].block == JIT_PATH || visits[1].block == AOT_ENTRY)
    ensures Leaves(VisitsTrace(visits), Lost(p, visits, returned)) && Leaves(inner, VisitsLost(visits))
    ensures visits[1].block == AOT_ENTRY ==> VisitsTrace(visits) == [CostBegin(p)] + inner + (if returned then [CostEnd(p)] else [])
    ensures visits[1].block == JIT_PATH ==> VisitsTrace(visits) == inner
  {
    hide Leaves, Below, StepsRun, PathOk, Instrument, Uninstrumented, VisitsTrace, VisitsLost;
    var code := program[p];
    assert VisitsLost(visits) + multiset{} == VisitsLost(visits);
    PathLonger(code, p, visits, returned);
    PathRegion(code, p, visits, returned, 1);
    assert visits[..|visits|] == visits;
    if visits[1].block == JIT_PATH {
      inner := VisitsTrace(visits);
      JitPrefix(program, p, depth, visits, returned, |visits|);
    } else {
      inner := AotPrefix(program, p, depth, visits, returned, |visits|);
      if returned {
        LeavesWrap(p, inner, VisitsLost(visits));
      } else {
        BeginLeaves(p);
        LeavesConcat([CostBegin(p)], multiset{p}, inner, VisitsLost(visits));
        assert [CostBegin(p)] + inner + [] == [CostBegin(p)] + inner;
        assert multiset{p} + VisitsLost(visits) == Lost(p, visits, returned);
      }
    }
  }

  /**
    * However deeply runs nest, returning or unwound, a run changes nothing of what is pending on its thread and puts on top of
    * it exactly the begins it and the runs inside it lose.
    */
  lemma {:induction false} RunsKeepBegins(program: Program, depth: nat)
    requires ProgramOk(program)
    ensures RunsLeave(program, depth)
  {
    hide Leaves, ProgramOk, RunsAs;
    if depth > 0 { RunsKeepBegins(program, depth - 1); }
    forall run {:trigger IsRun(program, run, depth)} | IsRun(program, run, depth) ensures Leaves(run.trace, run.lost) {
      var visits :| RunsAs(program, run.pipeline, depth, visits, run.returned) && run.trace == VisitsTrace(visits)
                    && run.lost == Lost(run.pipeline, visits, run.returned);
      var inner := RunShape(program, run.pipeline, depth, visits, run.returned);
    }
  }

  /**
    * Every run from entry to return: the pending stack keeps what it had and gets the begins lost inside on top, so it is restored
    * exactly if no run inside lost its begin. On the JIT path the run makes no cost call of its own; on the original path its one
    * begin is first and its one end last.
    */
  lemma RunsBalanced(program: Program, p: string, depth: nat, visits: seq<Visit>, pending: seq<Pending>, clock: nat)
    requires ProgramOk(program) && RunsAs(program, p, depth, visits, true)
    ensures Above(pending, Replay(pending, VisitsTrace(visits), clock), VisitsLost(visits))
    ensures Replay(pending, VisitsTrace(visits), clock) == pending <==> VisitsLost(visits) == multiset{}
    ensures |visits| > 1
    ensures visits[1].block == JIT_PATH ==> forall i {:trigger visits[i]} :: 0 <= i < |visits| ==> NoCostSteps(visits[i].steps)
    ensures visits[1].block != JIT_PATH ==>
              var trace := VisitsTrace(visits); |trace| >= 2 && trace[0] == CostBegin(p) && trace[|trace| - 1] == CostEnd(p)
  {
    hide Leaves, RunsAs, ProgramOk, VisitsTrace, VisitsLost, Replay, Names, Above, NoCostSteps;
    var inner := ReturnedShape(program, p, depth, visits);
    LeavesMeans(VisitsTrace(visits), VisitsLost(visits), pending, clock);
    Restored(pending, Replay(pending, VisitsTrace(visits), clock), VisitsLost(visits));
    if visits[1].block == JIT_PATH { JitRun(program, p, depth, visits); }
  }

  lemma ReturnedShape(program: Program, p: string, depth: nat, visits: seq<Visit>) returns (inner: seq<CostCall>)
    requires ProgramOk(program) && RunsAs(program, p, depth, visits, true)
    ensures |visits| > 1 && Leaves(VisitsTrace(visits), VisitsLost(visits)) && Leaves(inner, VisitsLost(visits))
    ensures visits[1].block != JIT_PATH ==> VisitsTrace(visits) == [CostBegin(p)] + inner + [CostEnd(p)]
  {
    if depth > 0 { RunsKeepBegins(program, depth - 1); }
    hide Leaves, RunsAs, ProgramOk, VisitsTrace, VisitsLost, RunsLeave;
    inner := RunShape(program, p, depth, visits, true);
    assert VisitsLost(visits) + multiset{} == VisitsLost(visits);
  }

  /** The stack a run's last cost call meets, from a stack and a clock. */
  function BeforeEnd(visits: seq<Visit>, pending: seq<Pending>, clock: nat): seq<Pending> {
    var trace := VisitsTrace(visits);
    Replay(pending, if trace == [] then [] else trace[..|trace| - 1], clock)
  }

  /** On the original path the end finds a begin to take, and it is the run's own exactly if no run of the pipeline inside lost its begin. */
  lemma EndTakesItsBegin(program: Program, p: string, depth: nat, visits: seq<Visit>, pending: seq<Pending>, clock: nat)
    requires ProgramOk(program) && RunsAs(program, p, depth, visits, true) && (|visits| > 1 ==> visits[1].block != JIT_PATH)
    ensures OwnOrAbove(pending, Pending(p, clock), BeforeEnd(visits, pending, clock), p in VisitsLost(visits))
  {
    hide Leaves, RunsAs, ProgramOk, VisitsTrace, VisitsLost, Replay, OwnOrAbove;
    var inner := ReturnedShape(program, p, depth, visits);
    EndTakesOwn(p, inner, VisitsLost(visits), pending, clock);
    assert VisitsTrace(visits)[..|VisitsTrace(visits)| - 1] == [CostBegin(p)] + inner;
  }

  /** The begin is on the stack, and an end of its name takes one above it if `above` and the begin itself otherwise. */
  predicate OwnOrAbove(pending: seq<Pending>, own: Pending, before: seq<Pending>, above: bool) {
    && pending + [own] <= before
    && (if above then |pending| < LastBegin(before, own.name) < |before| else LastBegin(before, own.name) == |pending|)
  }

  lemma EndTakesOwn(p: string, inner: seq<CostCall>, lost: multiset<string>, pending: seq<Pending>, clock: nat)
    requires Leaves(inner, lost)
    ensures OwnOrAbove(pending, Pending(p, clock), Replay(pending, [CostBegin(p)] + inner, clock), p in lost)
  {
    hide Leaves, Replay, Names, LastBegin, Above;
    BeginThen(p, inner, lost, pending, clock);
    EndTakes(pending, Pending(p, clock), Replay(pending, [CostBegin(p)] + inner, clock), lost);
  }

  lemma JitRun(program: Program, p: string, depth: nat, visits: seq<Visit>)
    requires ProgramOk(program) && RunsAs(program, p, depth, visits, true) && 1 < |visits| && visits[1].block == JIT_PATH
    ensures forall i {:trigger visits[i]} :: 0 <= i < |visits| ==> NoCostSteps(visits[i].steps)
  {
    forall i {:trigger visits[i]} | 0 <= i < |visits| ensures NoCostSteps(visits[i].steps) { JitSteps(program[p], p, visits, true, i); }
  }

  lemma Restored(pending: seq<Pending>, after: seq<Pending>, lost: multiset<string>)
    requires Above(pending, after, lost)
    ensures after == pending <==> lost == multiset{}
  {
    var above := after[|pending|..];
    if above == [] {
      assert after == after[..|pending|];
    } else {
      assert above[|above| - 1].name in Names(above);
    }
  }

  // ---------------------------------------------------------------- a pipeline that calls itself and catches

  /** Works, then calls itself. */
  function SelfCalling(): Program { map["p" := [Block([Work(0), Invoke("p")], Return)]] }

  /** The inner run is unwound at its work. */
  function Unwound(): seq<Visit> {
    [Visit(0, []), Visit(AOT_ENTRY, [Step(BeginCost("p"), []), Step(Work(0), [])])]
  }

  /** The outer one catches that and returns. */
  function Catching(): seq<Visit> {
    [Visit(0, []),
     Visit(AOT_ENTRY, [Step(BeginCost("p"), []), Step(Work(0), []), Step(Invoke("p"), [Sub("p", false, [CostBegin("p")], multiset{"p"})]),
                       Step(EndCost("p"), [])])]
  }

  lemma SelfCallingBlocks()
    ensures ProgramOk(SelfCalling())
    ensures Instrument(SelfCalling()["p"], "p")[0] == Block([], Goto([JIT_PATH, AOT_ENTRY]))
    ensures Instrument(SelfCalling()["p"], "p")[AOT_ENTRY] == Block([BeginCost("p"), Work(0), Invoke("p"), EndCost("p")], Return)
  {
    var code := SelfCalling()["p"];
    assert AotBlock(code, 0, "p") == Block([BeginCost("p")] + [Work(0), Invoke("p")] + [EndCost("p")], Return);
    assert Instrument(code, "p")[AOT_ENTRY] == AotBlock(code, 0, "p");
    assert NoCostCalls(code[0].ops);
  }

  /** The outer end takes the inner begin, and the outer begin stays pending. */
  lemma UnwoundBeginTaken()
    ensures RunsAs(SelfCalling(), "p", 1, Catching(), true) && VisitsLost(Catching()) == multiset{"p"}
    ensures VisitsTrace(Catching()) == [CostBegin("p"), CostBegin("p"), CostEnd("p")]
    ensures Replay([], [CostBegin("p"), CostBegin("p"), CostEnd("p")], 0) == [Pending("p", 0)]
  {
    CatchingRuns();
    CatchingTraces();
    TakenReplay();
  }

  lemma UnwoundRuns()
    ensures RunsAs(SelfCalling(), "p", 0, Unwound(), false)
    ensures VisitsTrace(Unwound()) == [CostBegin("p")] && Lost("p", Unwound(), false) == multiset{"p"}
  {
    UnwoundPath();
    UnwoundTraces();
  }

  lemma UnwoundPath()
    ensures RunsAs(SelfCalling(), "p", 0, Unwound(), false)
  {
    SelfCallingBlocks();
    hide Instrument;
  }

  lemma UnwoundTraces()
    ensures VisitsTrace(Unwound()) == [CostBegin("p")] && Lost("p", Unwound(), false) == multiset{"p"}
  {
    var steps := Unwound()[1].steps;
    EmptyTraces();
    hide VisitsTrace, VisitsLost, StepsTrace, StepsLost;
    StepsMore(steps, 1);
    StepsMore(steps, 2);
    assert steps[..0] == [] && steps[..2] == steps;
    PrefixMore(Unwound(), 1);
    PrefixMore(Unwound(), 2);
    assert Unwound()[..0] == [] && Unwound()[..2] == Unwound();
  }

  lemma CatchingRuns()
    ensures RunsAs(SelfCalling(), "p", 1, Catching(), true)
  {
    CatchingPath();
    CatchingInner();
    hide Instrument, PathOk, StepsRun;
    assert Catching()[0].steps == [];
    NoStepsRun(SelfCalling(), 1);
  }

  lemma NoStepsRun(program: Program, depth: nat)
    ensures StepsRun(program, [], depth) && SubsRun(program, [], depth)
  {}

  lemma OneRun(program: Program, run: Sub, depth: nat)
    requires IsRun(program, run, depth)
    ensures SubsRun(program, [run], depth + 1)
  {
    hide IsRun;
    assert [run][0] == run;
  }

  lemma StepsRunIf(program: Program, steps: seq<Step>, depth: nat)
    requires forall i {:trigger steps[i]} :: 0 <= i < |steps| ==> SubsRun(program, steps[i].subs, depth)
    ensures StepsRun(program, steps, depth)
  {
    hide SubsRun;
  }

  lemma CatchingInner()
    ensures StepsRun(SelfCalling(), Catching()[1].steps, 1)
  {
    var run := Sub("p", false, [CostBegin("p")], multiset{"p"});
    hide SubsRun, IsRun, StepsRun;
    UnwoundIsRun(run);
    NoStepsRun(SelfCalling(), 1);
    OneRun(SelfCalling(), run, 0);
    StepsRunIf(SelfCalling(), Catching()[1].steps, 1);
  }

  lemma UnwoundIsRun(run: Sub)
    requires run == Sub("p", false, [CostBegin("p")], multiset{"p"})
    ensures IsRun(SelfCalling(), run, 0)
  {
    UnwoundRuns();
    hide RunsAs, VisitsTrace, Lost;
    assert RunsAs(SelfCalling(), "p", 0, Unwound(), false);
  }

  lemma CatchingPath()
    ensures PathOk(Instrument(SelfCalling()["p"], "p"), Catching(), true)
  {
    SelfCallingBlocks();
    hide Instrument;
  }

  lemma CatchingTraces()
    ensures VisitsLost(Catching()) == multiset{"p"}
    ensures VisitsTrace(Catching()) == [CostBegin("p"), CostBegin("p"), CostEnd("p")]
  {
    var steps := Catching()[1].steps;
    CatchingSteps(steps);
    hide StepsTrace, StepsLost;
    PrefixMore(Catching(), 1);
    PrefixMore(Catching(), 2);
    EmptyTraces();
    assert Catching()[..0] == [] && Catching()[..2] == Catching();
    assert multiset{} + multiset{} + multiset{"p"} == multiset{"p"};
  }

  lemma CatchingSteps(steps: seq<Step>)
    requires steps == Catching()[1].steps
    ensures StepsTrace(steps) == [CostBegin("p"), CostBegin("p"), CostEnd("p")] && StepsLost(steps) == multiset{"p"}
  {
    CatchingSub(Sub("p", false, [CostBegin("p")], multiset{"p"}));
    EmptyTraces();
    hide SubsTrace, SubsLost, StepsTrace, StepsLost;
    FourSteps(steps);
  }

  lemma FourSteps(steps: seq<Step>)
    requires |steps| == 4
    ensures StepsTrace(steps) == StepTrace(steps[0]) + StepTrace(steps[1]) + StepTrace(steps[2]) + StepTrace(steps[3])
    ensures StepsLost(steps) == SubsLost(steps[0].subs) + SubsLost(steps[1].subs) + SubsLost(steps[2].subs) + SubsLost(steps[3].subs)
  {
    EmptyTraces();
    hide StepsTrace, StepsLost, StepTrace, SubsLost;
    StepsMore(steps, 1);
    StepsMore(steps, 2);
    StepsMore(steps, 3);
    StepsMore(steps, 4);
    assert steps[..0] == [] && steps[..4] == steps;
    assert [] + StepTrace(steps[0]) == StepTrace(steps[0]) && multiset{} + SubsLost(steps[0].subs) == SubsLost(steps[0].subs);
  }

  lemma EmptyTraces()
    ensures SubsTrace([]) == [] && SubsLost([]) == multiset{} && StepsTrace([]) == [] && StepsLost([]) == multiset{}
    ensures VisitsTrace([]) == [] && VisitsLost([]) == multiset{}
  {}

  lemma CatchingSub(run: Sub)
    ensures SubsTrace([run]) == run.trace && SubsLost([run]) == run.lost
  {
    assert [run][..0] == [];
    EmptyTraces();
    assert [] + run.trace == run.trace && multiset{} + run.lost == run.lost;
  }

  lemma StepsMore(steps: seq<Step>, i: nat)
    requires 0 < i <= |steps|
    ensures StepsTrace(steps[..i]) == StepsTrace(steps[..i - 1]) + StepTrace(steps[i - 1])
    ensures StepsLost(steps[..i]) == StepsLost(steps[..i - 1]) + SubsLost(steps[i - 1].subs)
  {
    assert steps[..i][..i - 1] == steps[..i - 1];
  }

  lemma TakenReplay()
    ensures Replay([], [CostBegin("p"), CostBegin("p"), CostEnd("p")], 0) == [Pending("p", 0)]
  {
    var trace := [CostBegin("p"), CostBegin("p"), CostEnd("p")];
    assert trace[..2] == [CostBegin("p"), CostBegin("p")] && trace[..2][..1] == [CostBegin("p")] && trace[..2][..1][..0] == [];
    assert Replay([], trace[..2][..1], 0) == [Pending("p", 0)];
    assert Replay([], trace[..2], 0) == [Pending("p", 0), Pending("p", 1)];
  }
}
