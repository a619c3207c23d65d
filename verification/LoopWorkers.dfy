/** The partitioned loop: workers run slices of the iteration space instruction by instruction on one shared memory. */
module LoopWorkers {
  import opened Options
  import opened Reductions
  import opened Words
  import opened LoopIr
  import opened LoopValues

  /** A loop entered with the given captured values and memory. */
  datatype Entry = Entry(loop: Loop, caps: seq<nat>, mem: Memory)

  predicate Admitted(e: Entry) { Partitionable(e.loop) && WellTyped(e.loop) }

  // ---------------------------------------------------------------- one iteration, by anyone

  /** vals are the first results of iteration i for someone whose accumulators are phis. */
  predicate Honest(e: Entry, i: nat, phis: seq<nat>, vals: seq<nat>)
    requires Partitionable(e.loop)
  {
    && |phis| == |e.loop.phis|
    && Agrees(e.loop, e.caps, e.mem, i, vals)
    && forall r {:trigger phis[r]} :: 0 <= r < |phis| ==> Accumulated(e, i, r, phis[r], vals)
  }

  predicate Accumulated(e: Entry, i: nat, r: nat, acc: nat, vals: seq<nat>)
    requires r < |e.loop.phis| && IsReduction(e.loop, r)
  {
    Binop(e.loop, r) < |vals| ==> vals[Binop(e.loop, r)] == Advance(e.loop, e.caps, e.mem, r, i, acc)
  }

  lemma AccumulatedStep(e: Entry, i: nat, phis: seq<nat>, vals: seq<nat>, mem: Memory, r: nat)
    requires Partitionable(e.loop) && Honest(e, i, phis, vals) && |vals| < |e.loop.body|
    requires r < |e.loop.phis| && IsReduction(e.loop, r)
    ensures Accumulated(e, i, r, phis[r], vals + [Eval(e.loop.body[|vals|], Frame(e.caps, IvAt(e.loop, i), phis, vals), mem)])
  {
    hide Partitionable, Advance, Eval, Agrees;
    assert Accumulated(e, i, r, phis[r], vals);
    if Binop(e.loop, r) == |vals| {
      BinopAdvances(e.loop, e.caps, e.mem, i, phis, vals, mem, r);
    }
  }

  lemma HonestStep(e: Entry, i: nat, phis: seq<nat>, vals: seq<nat>, mem: Memory)
    requires Partitionable(e.loop) && Honest(e, i, phis, vals) && |vals| < |e.loop.body| && SameLoads(e.loop, mem, e.mem)
    ensures Honest(e, i, phis, vals + [Eval(e.loop.body[|vals|], Frame(e.caps, IvAt(e.loop, i), phis, vals), mem)])
  {
    hide Accumulated, Agrees, Eval;
    AgreesStep(e.loop, e.caps, e.mem, i, phis, vals, mem);
    forall r {:trigger phis[r]} | 0 <= r < |phis|
      ensures Accumulated(e, i, r, phis[r], vals + [Eval(e.loop.body[|vals|], Frame(e.caps, IvAt(e.loop, i), phis, vals), mem)])
    {
      AccumulatedStep(e, i, phis, vals, mem, r);
    }
  }

  lemma HonestStart(e: Entry, i: nat, phis: seq<nat>)
    requires Partitionable(e.loop) && |phis| == |e.loop.phis|
    ensures Honest(e, i, phis, [])
  {}

  /** At the back edge every accumulator has advanced by its term. */
  lemma HonestLatch(e: Entry, i: nat, phis: seq<nat>, vals: seq<nat>, r: nat)
    requires Partitionable(e.loop) && Honest(e, i, phis, vals) && |vals| == |e.loop.body| && r < |e.loop.phis|
    ensures IsReduction(e.loop, r)
    ensures Latches(e.loop, Frame(e.caps, IvAt(e.loop, i), phis, vals))[r] == Advance(e.loop, e.caps, e.mem, r, i, phis[r])
  {
    hide Advance, Agrees;
    assert IsReduction(e.loop, r);
    assert Accumulated(e, i, r, phis[r], vals);
  }

  // ---------------------------------------------------------------- stores

  /** The address and value stored by instruction k of iteration i, if it is a store. */
  function StoreOf(e: Entry, i: nat, k: nat): Option<(nat, nat)>
    requires k < |e.loop.body|
  {
    var ins, f := e.loop.body[k], FreeFrame(e.loop, e.caps, e.mem, i, k);
    if ins.Store? then Some((Value(ins.addr, f), Value(ins.stored, f))) else None
  }

  /** Whoever executes it, an instruction stores what the iteration's own values say. */
  lemma EffectIsStore(e: Entry, i: nat, phis: seq<nat>, vals: seq<nat>, mem: Memory, a: nat)
    requires Partitionable(e.loop) && Honest(e, i, phis, vals) && |vals| < |e.loop.body| && SameLoads(e.loop, mem, e.mem)
    ensures
      var after := Effect(e.loop.body[|vals|], Frame(e.caps, IvAt(e.loop, i), phis, vals), mem);
      && SameLoads(e.loop, after, e.mem)
      && Read(after, a) == match StoreOf(e, i, |vals|) case Some((b, v)) => if a == b then v else Read(mem, a) case None => Read(mem, a)
  {
    hide Agrees, Accumulated;
    var k := |vals|;
    var ins := e.loop.body[k];
    if ins.Store? {
      assert HasStore(e.loop);
      StoreAccumulatesNothing(e.loop, k);
      EvalFree(e.loop, e.caps, e.mem, i, phis, vals, mem);
      assert ins.addr in Operands(ins) && ins.stored in Operands(ins);
    }
  }

  lemma StoreAccumulatesNothing(loop: Loop, k: nat)
    requires Partitionable(loop) && k < |loop.body| && loop.body[k].Store?
    ensures !Accumulates(loop, k)
  {
    forall r | 0 <= r < |loop.phis| ensures loop.phis[r].latch != Val(k) {
      assert IsReduction(loop, r);
    }
  }

  /** What the first k instructions of iteration i last store at a. */
  function LastInIteration(e: Entry, i: nat, k: nat, a: nat): Option<nat>
    requires k <= |e.loop.body|
  {
    if k == 0 then None
    else match StoreOf(e, i, k - 1)
      case Some((b, v)) => if a == b then Some(v) else LastInIteration(e, i, k - 1, a)
      case None => LastInIteration(e, i, k - 1, a)
  }

  function Or<T>(first: Option<T>, second: Option<T>): Option<T> { if first.Some? then first else second }

  /** What iterations lo up to (not including) hi last store at a. */
  function LastStored(e: Entry, lo: nat, hi: nat, a: nat): Option<nat> {
    if hi <= lo then None else Or(LastInIteration(e, hi - 1, |e.loop.body|, a), LastStored(e, lo, hi - 1, a))
  }

  lemma {:induction false} LastStoredSplit(e: Entry, lo: nat, mid: nat, hi: nat, a: nat)
    requires lo <= mid <= hi
    ensures LastStored(e, lo, hi, a) == Or(LastStored(e, mid, hi, a), LastStored(e, lo, mid, a))
  {
    if mid < hi { LastStoredSplit(e, lo, mid, hi - 1, a); }
  }

  // ---------------------------------------------------------------- folds over iterations

  /** Accumulator r after iterations lo up to hi, from acc. */
  function Folded(e: Entry, r: nat, lo: nat, hi: nat, acc: nat): nat
    requires r < |e.loop.phis| && IsReduction(e.loop, r)
  {
    if hi <= lo then acc else Advance(e.loop, e.caps, e.mem, r, hi - 1, Folded(e, r, lo, hi - 1, acc))
  }

  function Terms(e: Entry, r: nat, lo: nat, hi: nat): (xs: seq<nat>)
    requires r < |e.loop.phis| && IsReduction(e.loop, r) && lo <= hi
    ensures |xs| == hi - lo
  {
    seq<nat>(hi - lo, j requires 0 <= j < hi - lo => Term(e.loop, e.caps, e.mem, r, lo + j))
  }

  /** The fold of an ordinary reduction accumulates the iterations' terms; a self-operand one only applies itself. */
  lemma {:induction false} FoldedMeaning(e: Entry, r: nat, lo: nat, hi: nat, acc: nat)
    requires r < |e.loop.phis| && IsReduction(e.loop, r) && lo <= hi
    ensures
      var ins := e.loop.body[Binop(e.loop, r)];
      Folded(e, r, lo, hi, acc) ==
        if SelfOperand(e.loop, r) then SelfApply(ins.op, ins.width, acc, hi - lo) else Accumulate(ins.op, ins.width, acc, Terms(e, r, lo, hi))
  {
    hide IsReduction, Apply, Term;
    if lo < hi {
      FoldedMeaning(e, r, lo, hi - 1, acc);
      var xs := Terms(e, r, lo, hi);
      assert xs[..|xs| - 1] == Terms(e, r, lo, hi - 1);
      assert xs[|xs| - 1] == Term(e.loop, e.caps, e.mem, r, hi - 1);
    }
  }

  // ---------------------------------------------------------------- the sequential loop

  lemma {:induction false} ExecuteHonest(e: Entry, i: nat, phis: seq<nat>, mem: Memory, k: nat, a: nat)
    requires Partitionable(e.loop) && |phis| == |e.loop.phis| && k <= |e.loop.body| && SameLoads(e.loop, mem, e.mem)
    ensures
      var s := Execute(e.loop, e.caps, IvAt(e.loop, i), phis, mem, k);
      && Honest(e, i, phis, s.vals) && SameLoads(e.loop, s.mem, e.mem)
      && Read(s.mem, a) == match LastInIteration(e, i, k, a) case Some(v) => v case None => Read(mem, a)
  {
    hide Honest, SameLoads, Partitionable, Eval, Effect, Read;
    if k == 0 {
      HonestStart(e, i, phis);
    } else {
      ExecuteHonest(e, i, phis, mem, k - 1, a);
      var s := Execute(e.loop, e.caps, IvAt(e.loop, i), phis, mem, k - 1);
      HonestStep(e, i, phis, s.vals, s.mem);
      EffectIsStore(e, i, phis, s.vals, s.mem, a);
    }
  }

  /** The original loop: each phi is its fold over all iterations, each address holds what was stored there last. */
  lemma {:induction false} SequentialMeaning(e: Entry, n: nat, r: nat, a: nat)
    requires Partitionable(e.loop)
    ensures
      var s := Sequential(e.loop, e.caps, e.mem, n);
      && SameLoads(e.loop, s.mem, e.mem)
      && Read(s.mem, a) == (match LastStored(e, 0, n, a) case Some(v) => v case None => Read(e.mem, a))
      && (r < |e.loop.phis| ==> IsReduction(e.loop, r) && s.phis[r] == Folded(e, r, 0, n, e.loop.phis[r].init))
  {
    hide Honest, SameLoads, Execute, Read, Latches, LastInIteration, Advance, IvAt, IsReduction, WellTyped;
    if n == 0 {
      assert SameLoads(e.loop, e.mem, e.mem) by { SameLoadsSelf(e.loop, e.mem); }
    } else {
      SequentialMeaning(e, n - 1, r, a);
      var s := Sequential(e.loop, e.caps, e.mem, n - 1);
      ExecuteHonest(e, n - 1, s.phis, s.mem, |e.loop.body|, a);
      var p := Execute(e.loop, e.caps, IvAt(e.loop, n - 1), s.phis, s.mem, |e.loop.body|);
      if r < |e.loop.phis| { HonestLatch(e, n - 1, s.phis, p.vals, r); }
    }
  }

  lemma SameLoadsSelf(loop: Loop, mem: Memory)
    ensures SameLoads(loop, mem, mem)
  {}
}
