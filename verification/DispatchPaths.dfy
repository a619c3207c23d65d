/** A dispatched pipeline function runs exactly its original paths, or the installed variant once. */
module DispatchPaths {
  import opened DispatchBalance

  /** The steps that are no cost calls. */
  function WithoutCost(steps: seq<Step>): seq<Step> {
    if steps == [] then []
    else WithoutCost(steps[..|steps| - 1]) + if IsCostCall(steps[|steps| - 1].op) then [] else [steps[|steps| - 1]]
  }

  /** A visit of an original block, seen from the original function. */
  function OwnVisit(v: Visit): Visit { Visit(if v.block < SHIFT then 0 else v.block - SHIFT, WithoutCost(v.steps)) }

  /** A path past the new entry, seen from the original function. */
  function OwnPath(visits: seq<Visit>): (r: seq<Visit>)
    requires visits != []
    ensures |r| == |visits| - 1
  {
    seq(|visits| - 1, i requires 0 <= i < |visits| - 1 => OwnVisit(visits[i + 1]))
  }

  // ---------------------------------------------------------------- one block

  lemma {:induction false} WithoutCostConcat(a: seq<Step>, b: seq<Step>)
    ensures WithoutCost(a + b) == WithoutCost(a) + WithoutCost(b)
  {
    if b == [] {
      assert a + b == a;
    } else {
      assert (a + b)[..|a + b| - 1] == a + b[..|b| - 1];
      WithoutCostConcat(a, b[..|b| - 1]);
    }
  }

  lemma {:induction false} NothingToDrop(steps: seq<Step>)
    requires NoCostSteps(steps)
    ensures WithoutCost(steps) == steps
  {
    if steps != [] {
      var init, last := steps[..|steps| - 1], steps[|steps| - 1];
      forall i {:trigger init[i]} | 0 <= i < |init| ensures !IsCostCall(init[i].op) { assert init[i] == steps[i]; }
      NothingToDrop(init);
      assert steps == init + [last];
    }
  }

  lemma {:induction false} DropOne(st: Step)
    requires IsCostCall(st.op)
    ensures WithoutCost([st]) == []
  {
    assert [st][..0] == [];
  }

  /** Steps that are a begin if `first`, then steps without cost calls, then an end if `last`. */
  lemma {:induction false} DropEdges(x: seq<Step>, y: seq<Step>, z: seq<Step>)
    requires |x| <= 1 && |z| <= 1 && NoCostSteps(y)
    requires (|x| == 1 ==> IsCostCall(x[0].op)) && (|z| == 1 ==> IsCostCall(z[0].op))
    ensures WithoutCost(x + y + z) == y
  {
    WithoutCostConcat(x + y, z);
    WithoutCostConcat(x, y);
    NothingToDrop(y);
    if |x| == 1 { DropOne(x[0]); assert x == [x[0]]; }
    if |z| == 1 { DropOne(z[0]); assert z == [z[0]]; }
  }

  // ---------------------------------------------------------------- one visit

  /** The steps execute the operations from the first on. */
  ghost predicate Executes(steps: seq<Step>, ops: seq<Op>) {
    |steps| <= |ops| && forall k {:trigger steps[k]} :: 0 <= k < |steps| ==> steps[k].op == ops[k] && StepOk(steps[k])
  }

  predicate CostOnly(ops: seq<Op>) { |ops| <= 1 && (|ops| == 1 ==> IsCostCall(ops[0])) }

  /** The steps execute a cost call before own operations that are none, and one after them. */
  ghost predicate Wrapped(steps: seq<Step>, pre: seq<Op>, own: seq<Op>, post: seq<Op>) {
    CostOnly(pre) && CostOnly(post) && NoCostCalls(own) && Executes(steps, pre + own + post)
  }

  function Min(a: nat, b: nat): nat { if a < b then a else b }

  /** Past the cost call before, the own operations executed, from step i to step j. */
  predicate Between(steps: seq<Step>, pre: seq<Op>, own: seq<Op>, i: nat, j: nat) {
    i == Min(|steps|, |pre|) && j == i + Min(|steps| - i, |own|)
  }

  /** Of a block with a cost call before its own operations and one after them, the own ones are executed from the first on. */
  lemma {:induction false} OwnSteps(steps: seq<Step>, pre: seq<Op>, own: seq<Op>, post: seq<Op>, i: nat, j: nat)
    requires Wrapped(steps, pre, own, post) && Between(steps, pre, own, i, j)
    ensures i <= j <= |steps| && WithoutCost(steps) == steps[i..j] && Executes(steps[i..j], own)
  {
    hide Wrapped, Executes, NoCostSteps, NoCostCalls, IsCostCall, WithoutCost, Between;
    MiddleSteps(steps, pre, own, post, i, j);
    EdgeCosts(steps, pre, own, post, i, j);
    Cut(steps, i, j);
    DropEdges(steps[..i], steps[i..j], steps[j..]);
  }

  lemma {:induction false} MiddleSteps(steps: seq<Step>, pre: seq<Op>, own: seq<Op>, post: seq<Op>, i: nat, j: nat)
    requires Wrapped(steps, pre, own, post) && Between(steps, pre, own, i, j)
    ensures i <= j <= |steps| && Executes(steps[i..j], own) && NoCostSteps(steps[i..j])
  {
    hide StepOk;
    var y := steps[i..j];
    forall k {:trigger y[k]} | 0 <= k < |y| ensures y[k].op == own[k] && StepOk(y[k]) && !IsCostCall(y[k].op) {
      assert y[k] == steps[i + k];
      assert own[k] == (pre + own + post)[|pre| + k];
    }
  }

  lemma {:induction false} EdgeCosts(steps: seq<Step>, pre: seq<Op>, own: seq<Op>, post: seq<Op>, i: nat, j: nat)
    requires Wrapped(steps, pre, own, post) && Between(steps, pre, own, i, j)
    ensures i <= 1 && i <= j <= |steps| <= j + 1 && (i == 1 ==> IsCostCall(steps[0].op))
    ensures j < |steps| ==> IsCostCall(steps[j].op) && |pre| + |own| < |steps|
  {
    hide StepOk;
    var ops := pre + own + post;
    if |steps| > |pre| + |own| { assert steps[|pre| + |own|].op == ops[|pre| + |own|] == post[0]; }
  }

  function Opens(b: nat, name: string): seq<Op> { if b == 0 then [BeginCost(name)] else [] }

  function Closes(code: Code, b: nat, name: string): seq<Op>
    requires b < |code|
  {
    if code[b].term.Return? then [EndCost(name)] else []
  }

  lemma {:induction false} BlockParts(code: Code, name: string, v: Visit) returns (pre: seq<Op>, post: seq<Op>)
    requires Uninstrumented(code) && SHIFT <= v.block < |code| + SHIFT && VisitOk(Instrument(code, name), v)
    ensures pre == Opens(v.block - SHIFT, name) && post == Closes(code, v.block - SHIFT, name)
    ensures Wrapped(v.steps, pre, code[v.block - SHIFT].ops, post)
    ensures Instrument(code, name)[v.block].ops == pre + code[v.block - SHIFT].ops + post
  {
    var b := v.block - SHIFT;
    pre, post := Opens(b, name), Closes(code, b, name);
    assert Instrument(code, name)[v.block] == AotBlock(code, b, name);
    assert NoCostCalls(code[b].ops);
  }

  /** The visit's own steps, from i to j, and what stands after them. */
  lemma {:induction false} OwnPart(code: Code, name: string, v: Visit) returns (i: nat, j: nat)
    requires Uninstrumented(code) && SHIFT <= v.block < |code| + SHIFT && VisitOk(Instrument(code, name), v)
    ensures i <= j <= |v.steps| && WithoutCost(v.steps) == v.steps[i..j] && Executes(v.steps[i..j], code[v.block - SHIFT].ops)
    ensures |v.steps| <= j + 1 && (j < |v.steps| || i == j) && v.steps != [] ==> IsCostCall(v.steps[|v.steps| - 1].op)
    ensures Complete(Instrument(code, name), v) ==> j - i == |code[v.block - SHIFT].ops|
  {
    hide Instrument, Uninstrumented, WithoutCost, Wrapped, Executes;
    var pre, post := BlockParts(code, name, v);
    var own := code[v.block - SHIFT].ops;
    i := Min(|v.steps|, |pre|);
    j := i + Min(|v.steps| - i, |own|);
    OwnSteps(v.steps, pre, own, post, i, j);
    EdgeCosts(v.steps, pre, own, post, i, j);
  }

  /** A visit of an original block, as far as it got, is a visit of the block in the original function. */
  lemma {:induction false} OwnVisitOk(code: Code, name: string, v: Visit)
    requires Uninstrumented(code) && SHIFT <= v.block < |code| + SHIFT && VisitOk(Instrument(code, name), v)
    ensures VisitOk(code, OwnVisit(v))
    ensures Complete(Instrument(code, name), v) ==> Complete(code, OwnVisit(v))
    ensures Unwinds(Instrument(code, name), v) ==> Unwinds(code, OwnVisit(v))
  {
    AotLeaves(code, name, v.block);
    var i, j := OwnPart(code, name, v);
    hide StepOk, WithoutCost, Instrument, Uninstrumented, IsCostCall;
    assert OwnVisit(v).steps == v.steps[i..j];
  }

  lemma {:induction false} AotLeaves(code: Code, name: string, block: nat)
    requires SHIFT <= block < |code| + SHIFT
    ensures Instrument(code, name)[block].term.Leave? <==> code[block - SHIFT].term.Leave?
  {
    assert Instrument(code, name)[block] == AotBlock(code, block - SHIFT, name);
  }

  // ---------------------------------------------------------------- whole paths

  /** A branch at the end of one visit leads to the next. */
  predicate Follows(code: Code, v: Visit, w: Visit) {
    Complete(code, v) && code[v.block].term.Goto? && w.block in code[v.block].term.targets
  }

  predicate EndsAt(code: Code, v: Visit, returned: bool) {
    if returned then Complete(code, v) && code[v.block].term.Return? else v.block < |code| && Unwinds(code, v)
  }

  lemma {:induction false} PathMade(code: Code, visits: seq<Visit>, returned: bool)
    requires visits != [] && visits[0].block == 0 && EndsAt(code, visits[|visits| - 1], returned)
    requires forall i :: 0 <= i < |visits| ==> VisitOk(code, visits[i])
    requires forall i :: 0 <= i < |visits| - 1 ==> Follows(code, visits[i], visits[i + 1])
    ensures PathOk(code, visits, returned)
  {
    hide VisitOk, Complete, Unwinds;
    forall i {:trigger visits[i]} | 0 <= i < |visits| - 1
      ensures Complete(code, visits[i]) && visits[i].block < |code| && code[visits[i].block].term.Goto? && visits[i + 1].block in code[visits[i].block].term.targets
    {
      assert Follows(code, visits[i], visits[i + 1]);
      FollowsInside(code, visits[i]);
    }
  }

  lemma {:induction false} FollowsInside(code: Code, v: Visit)
    requires Complete(code, v)
    ensures v.block < |code|
  {}

  lemma {:induction false} PathParts(code: Code, visits: seq<Visit>, returned: bool, i: nat)
    requires PathOk(code, visits, returned) && i < |visits|
    ensures VisitOk(code, visits[i]) && (i < |visits| - 1 ==> Follows(code, visits[i], visits[i + 1]))
    ensures i == |visits| - 1 ==> EndsAt(code, visits[i], returned)
  {
    hide StepOk, Unwinds;
  }

  lemma {:induction false} OwnTarget(code: Code, name: string, block: nat, next: nat)
    requires SHIFT <= block < |code| + SHIFT && SHIFT <= next
    requires Instrument(code, name)[block].term.Goto? && next in Instrument(code, name)[block].term.targets
    ensures code[block - SHIFT].term.Goto? && next - SHIFT in code[block - SHIFT].term.targets
  {
    assert Instrument(code, name)[block] == AotBlock(code, block - SHIFT, name);
    hide Instrument;
    var t :| 0 <= t < |code[block - SHIFT].term.targets| && Shifted(code[block - SHIFT].term.targets)[t] == next;
  }

  predicate Original(code: Code, v: Visit) { SHIFT <= v.block < |code| + SHIFT }

  lemma {:induction false} OwnBlock(v: Visit)
    requires SHIFT <= v.block
    ensures OwnVisit(v).block == v.block - SHIFT
  {}

  lemma {:induction false} OwnFollows(code: Code, name: string, v: Visit, w: Visit)
    requires Uninstrumented(code) && Original(code, v) && Original(code, w)
    requires VisitOk(Instrument(code, name), v) && Follows(Instrument(code, name), v, w)
    ensures Follows(code, OwnVisit(v), OwnVisit(w))
  {
    OwnVisitOk(code, name, v);
    OwnBlock(v);
    OwnBlock(w);
    hide OwnVisit, Instrument, Uninstrumented, VisitOk;
    OwnTarget(code, name, v.block, w.block);
  }

  lemma {:induction false} OwnEnds(code: Code, name: string, v: Visit, returned: bool)
    requires Uninstrumented(code) && Original(code, v) && VisitOk(Instrument(code, name), v) && EndsAt(Instrument(code, name), v, returned)
    ensures EndsAt(code, OwnVisit(v), returned)
  {
    OwnVisitOk(code, name, v);
    OwnBlock(v);
    AotTerm(code, name, v.block);
    hide OwnVisit, Instrument, Uninstrumented, VisitOk, Unwinds;
  }

  lemma {:induction false} StaysOriginal(code: Code, name: string, visits: seq<Visit>, returned: bool, i: nat)
    requires code != [] && Uninstrumented(code) && PathOk(Instrument(code, name), visits, returned)
    requires 1 <= i < |visits| && visits[1].block == AOT_ENTRY
    ensures Original(code, visits[i])
  {
    PathRegion(code, name, visits, returned, i);
  }

  /** A path that takes the original entry executes, but for the cost calls, a path of the original function, and ends as that does. */
  lemma {:induction false} OriginalPathTaken(code: Code, name: string, visits: seq<Visit>, returned: bool)
    requires code != [] && Uninstrumented(code) && PathOk(Instrument(code, name), visits, returned)
    requires |visits| > 1 ==> visits[1].block == AOT_ENTRY
    ensures |visits| > 1 && PathOk(code, OwnPath(visits), returned)
  {
    hide Instrument, Uninstrumented, PathOk, VisitOk, Follows, EndsAt, OwnVisit, Original;
    PathLonger(code, name, visits, returned);
    var r, own := Instrument(code, name), OwnPath(visits);
    forall i | 0 <= i < |own|
      ensures VisitOk(code, own[i]) && (i < |own| - 1 ==> Follows(code, own[i], own[i + 1])) && (i == |own| - 1 ==> EndsAt(code, own[i], returned))
    {
      StaysOriginal(code, name, visits, returned, i + 1);
      PathParts(r, visits, returned, i + 1);
      OwnAt(code, name, visits[i + 1]);
      if i < |own| - 1 {
        StaysOriginal(code, name, visits, returned, i + 2);
        OwnFollows(code, name, visits[i + 1], visits[i + 2]);
      } else {
        OwnEnds(code, name, visits[i + 1], returned);
      }
    }
    OwnBlock(visits[1]);
    PathMade(code, own, returned);
  }

  lemma {:induction false} OwnAt(code: Code, name: string, v: Visit)
    requires Uninstrumented(code) && Original(code, v) && VisitOk(Instrument(code, name), v)
    ensures VisitOk(code, OwnVisit(v))
  {
    hide Instrument, Uninstrumented, VisitOk, OwnVisit;
    OwnVisitOk(code, name, v);
  }

  // ---------------------------------------------------------------- every original path

  /** A visit of the original function as the dispatched one makes it, to its end or not. */
  function Wrap(name: string, v: Visit, end: bool): Visit {
    Visit(v.block + SHIFT, (if v.block == 0 then [Step(BeginCost(name), [])] else []) + v.steps + (if end then [Step(EndCost(name), [])] else []))
  }

  function Dispatched(name: string, visits: seq<Visit>, returned: bool): (r: seq<Visit>)
    ensures |r| == |visits| + 1 && r[0] == Visit(0, []) && forall i {:trigger r[i + 1]} :: 0 <= i < |visits| ==> r[i + 1] == Wrap(name, visits[i], returned && i == |visits| - 1)
  {
    [Visit(0, [])] + seq(|visits|, i requires 0 <= i < |visits| => Wrap(name, visits[i], returned && i == |visits| - 1))
  }

  lemma {:induction false} OwnNoCost(code: Code, v: Visit)
    requires Uninstrumented(code) && VisitOk(code, v)
    ensures NoCostSteps(v.steps)
  {
    var ops := code[v.block].ops;
    assert NoCostCalls(ops);
    forall i {:trigger v.steps[i]} | 0 <= i < |v.steps| ensures !IsCostCall(v.steps[i].op) {
      assert v.steps[i].op == ops[i];
      assert !ops[i].BeginCost? && !ops[i].EndCost?;
    }
  }

  lemma {:induction false} UnwrapOwn(code: Code, name: string, v: Visit, end: bool)
    requires Uninstrumented(code) && VisitOk(code, v)
    ensures OwnVisit(Wrap(name, v, end)) == v
  {
    OwnNoCost(code, v);
    var x := if v.block == 0 then [Step(BeginCost(name), [])] else [];
    var z := if end then [Step(EndCost(name), [])] else [];
    hide NoCostSteps;
    DropEdges(x, v.steps, z);
  }

  lemma {:induction false} WrapOps(code: Code, name: string, b: nat)
    requires b < |code|
    ensures Instrument(code, name)[b + SHIFT].ops == Opens(b, name) + code[b].ops + Closes(code, b, name)
    ensures Instrument(code, name)[b + SHIFT].term == if code[b].term.Goto? then Goto(Shifted(code[b].term.targets)) else code[b].term
  {
    assert Instrument(code, name)[b + SHIFT] == AotBlock(code, b, name);
  }

  lemma {:induction false} WrapOk(code: Code, name: string, v: Visit, end: bool)
    requires Uninstrumented(code) && VisitOk(code, v) && (end ==> Complete(code, v) && code[v.block].term.Return?)
    ensures VisitOk(Instrument(code, name), Wrap(name, v, end))
    ensures Complete(code, v) && (code[v.block].term.Return? ==> end) ==> Complete(Instrument(code, name), Wrap(name, v, end))
    ensures !end && Unwinds(code, v) ==> Unwinds(Instrument(code, name), Wrap(name, v, end))
  {
    WrapOps(code, name, v.block);
    OwnNoCost(code, v);
    hide Instrument, Uninstrumented, NoCostSteps;
    var w, r := Wrap(name, v, end), Instrument(code, name);
    var x := if v.block == 0 then 1 else 0;
    forall i {:trigger w.steps[i]} | 0 <= i < |w.steps| ensures w.steps[i].op == r[w.block].ops[i] && StepOk(w.steps[i]) {
      if x <= i < x + |v.steps| { assert w.steps[i] == v.steps[i - x]; }
    }
    if v.steps != [] { assert w.steps[x + |v.steps| - 1] == v.steps[|v.steps| - 1]; }
  }

  lemma {:induction false} WrapFollows(code: Code, name: string, v: Visit, w: Visit, end: bool)
    requires Uninstrumented(code) && VisitOk(code, v) && Follows(code, v, w)
    ensures Follows(Instrument(code, name), Wrap(name, v, false), Wrap(name, w, end))
  {
    WrapOk(code, name, v, false);
    WrapOps(code, name, v.block);
    hide Instrument, Uninstrumented, VisitOk;
    var targets := code[v.block].term.targets;
    var t :| 0 <= t < |targets| && targets[t] == w.block;
    assert Shifted(targets)[t] == w.block + SHIFT;
  }

  lemma {:induction false} WrapEnds(code: Code, name: string, v: Visit, returned: bool)
    requires Uninstrumented(code) && VisitOk(code, v) && EndsAt(code, v, returned)
    ensures EndsAt(Instrument(code, name), Wrap(name, v, returned), returned) && VisitOk(Instrument(code, name), Wrap(name, v, returned))
  {
    WrapOk(code, name, v, returned);
    WrapOps(code, name, v.block);
    hide Instrument, Uninstrumented, VisitOk, Unwinds;
  }

  lemma {:induction false} KeptStep(code: Code, name: string, visits: seq<Visit>, returned: bool, i: nat)
    requires Uninstrumented(code) && PathOk(code, visits, returned) && i < |visits|
    ensures
      var r, ws := Instrument(code, name), Dispatched(name, visits, returned);
      && VisitOk(r, ws[i + 1]) && OwnVisit(ws[i + 1]) == visits[i]
      && (i < |visits| - 1 ==> Follows(r, ws[i + 1], ws[i + 2])) && (i == |visits| - 1 ==> EndsAt(r, ws[i + 1], returned))
  {
    hide Instrument, Uninstrumented, PathOk, VisitOk, Follows, EndsAt, OwnVisit, Wrap;
    var ws := Dispatched(name, visits, returned);
    assert ws[i + 1] == Wrap(name, visits[i], returned && i == |visits| - 1);
    PathParts(code, visits, returned, i);
    if i < |visits| - 1 {
      assert ws[(i + 1) + 1] == Wrap(name, visits[i + 1], returned && i + 1 == |visits| - 1);
      UnwrapOwn(code, name, visits[i], false);
      KeptAt(code, name, visits[i]);
      WrapFollows(code, name, visits[i], visits[i + 1], returned && i + 1 == |visits| - 1);
    } else {
      UnwrapOwn(code, name, visits[i], returned);
      WrapEnds(code, name, visits[i], returned);
    }
  }

  lemma {:induction false} KeptPath(code: Code, name: string, visits: seq<Visit>, returned: bool)
    requires Uninstrumented(code) && PathOk(code, visits, returned)
    ensures PathOk(Instrument(code, name), Dispatched(name, visits, returned), returned)
  {
    var r, ws := Instrument(code, name), Dispatched(name, visits, returned);
    EntryFirst(code, name, visits, returned);
    hide Instrument, Uninstrumented, PathOk, VisitOk, Follows, EndsAt, OwnVisit, Wrap, Dispatched;
    forall j | 0 <= j < |ws| ensures VisitOk(r, ws[j]) && (j < |ws| - 1 ==> Follows(r, ws[j], ws[j + 1])) && (j == |ws| - 1 ==> EndsAt(r, ws[j], returned)) {
      if j > 0 { KeptStep(code, name, visits, returned, j - 1); }
    }
    PathMade(r, ws, returned);
  }

  /** Every path of the original function can be taken: with the begin before it and the end after it, if it returns. */
  lemma {:induction false} OriginalPathKept(code: Code, name: string, visits: seq<Visit>, returned: bool)
    requires Uninstrumented(code) && PathOk(code, visits, returned)
    ensures PathOk(Instrument(code, name), Dispatched(name, visits, returned), returned)
    ensures Dispatched(name, visits, returned)[1].block == AOT_ENTRY && OwnPath(Dispatched(name, visits, returned)) == visits
  {
    hide Instrument, Uninstrumented, PathOk, VisitOk, Follows, EndsAt, OwnVisit, Wrap, Dispatched;
    EntryFirst(code, name, visits, returned);
    KeptPath(code, name, visits, returned);
    var own := OwnPath(Dispatched(name, visits, returned));
    forall i | 0 <= i < |visits| ensures own[i] == visits[i] { KeptStep(code, name, visits, returned, i); }
  }

  lemma {:induction false} KeptAt(code: Code, name: string, v: Visit)
    requires Uninstrumented(code) && VisitOk(code, v)
    ensures VisitOk(Instrument(code, name), Wrap(name, v, false))
  {
    hide Instrument, Uninstrumented, VisitOk, Wrap;
    WrapOk(code, name, v, false);
  }

  lemma {:induction false} EntryFirst(code: Code, name: string, visits: seq<Visit>, returned: bool)
    requires PathOk(code, visits, returned)
    ensures var r, ws := Instrument(code, name), Dispatched(name, visits, returned);
            visits != [] && ws[1].block == AOT_ENTRY && VisitOk(r, ws[0]) && Follows(r, ws[0], ws[1])
  {
    assert Dispatched(name, visits, returned)[0 + 1] == Wrap(name, visits[0], returned && 0 == |visits| - 1);
    assert Instrument(code, name)[0] == Block([], Goto([JIT_PATH, AOT_ENTRY]));
    hide Instrument;
  }

  // ---------------------------------------------------------------- the JIT path

  /** The operations a path executes. */
  function Executed(visits: seq<Visit>): seq<Op> {
    if visits == [] then [] else Executed(visits[..|visits| - 1]) + Ops(visits[|visits| - 1].steps)
  }

  function Ops(steps: seq<Step>): seq<Op> { seq(|steps|, i requires 0 <= i < |steps| => steps[i].op) }

  /** A path that takes the JIT entry and returns calls the variant once and does nothing else but, perhaps, report that first. */
  lemma {:induction false} JitPathCallsOnce(code: Code, name: string, visits: seq<Visit>)
    requires code != [] && Uninstrumented(code) && PathOk(Instrument(code, name), visits, true) && |visits| > 1 && visits[1].block == JIT_PATH
    ensures Executed(visits) == [CallJit] || Executed(visits) == [EmitSwitch, CallJit]
  {
    var r, n := Instrument(code, name), |code|;
    assert r[1] == Block([], Goto([PeEmit(n), PeDone(n)])) && r[PeDone(n)] == Block([CallJit], Return) && r[PeEmit(n)] == Block([EmitSwitch], Goto([PeDone(n)]));
    hide Instrument, Uninstrumented;
    PathLonger(code, name, visits, true);
    JitVisit(r, visits, 1, []);
    PathStep(r, visits, true, 1);
    if visits[2].block == PeDone(n) {
      JitVisit(r, visits, 2, [CallJit]);
      ReturnIsLast(r, visits, 2);
      Executed3(visits);
    } else {
      JitVisit(r, visits, 2, [EmitSwitch]);
      PathStep(r, visits, true, 2);
      JitVisit(r, visits, 3, [CallJit]);
      ReturnIsLast(r, visits, 3);
      Executed3(visits[..3]);
      assert visits[..|visits| - 1] == visits[..3];
    }
  }

  lemma {:induction false} ReturnIsLast(r: Code, visits: seq<Visit>, i: nat)
    requires PathOk(r, visits, true) && i < |visits| && visits[i].block < |r| && r[visits[i].block].term.Return?
    ensures i == |visits| - 1
  {
    if i < |visits| - 1 { PathStep(r, visits, true, i); }
  }

  lemma {:induction false} JitVisit(r: Code, visits: seq<Visit>, i: nat, ops: seq<Op>)
    requires PathOk(r, visits, true) && i < |visits| && visits[i].block < |r| && r[visits[i].block].ops == ops
    ensures Ops(visits[i].steps) == ops
  {
    PathVisit(r, visits, true, i);
    assert Complete(r, visits[i]) by { if i < |visits| - 1 { PathStep(r, visits, true, i); } }
    hide StepOk;
    assert |Ops(visits[i].steps)| == |ops|;
    forall k | 0 <= k < |ops| ensures Ops(visits[i].steps)[k] == ops[k] { assert visits[i].steps[k].op == ops[k]; }
  }

  lemma {:induction false} Executed3(visits: seq<Visit>)
    requires |visits| == 3 && visits[0].steps == [] && Ops(visits[1].steps) == []
    ensures Executed(visits) == Ops(visits[2].steps)
  {
    assert visits[..2][..1] == visits[..1] && visits[..1][..0] == [];
    assert Executed(visits[..1]) == [] + Ops(visits[0].steps);
    assert Executed(visits[..2]) == Executed(visits[..1]) + Ops(visits[1].steps);
  }
}
