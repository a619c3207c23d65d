/** What the gate guarantees: apart from the accumulations an iteration's values depend neither on the phis nor on other iterations. */
module LoopValues {
  import opened Options
  import opened Reductions
  import opened Words
  import opened LoopIr

  function Zeros(n: nat): (s: seq<nat>)
    ensures |s| == n
  {
    seq(n, _ => 0)
  }

  /** The first k results of iteration i run on the loop's entry memory with blank phis. */
  function Free(loop: Loop, caps: seq<nat>, mem: Memory, i: nat, k: nat): (vals: seq<nat>)
    requires k <= |loop.body|
    ensures |vals| == k
  {
    Execute(loop, caps, IvAt(loop, i), Zeros(|loop.phis|), mem, k).vals
  }

  function FreeFrame(loop: Loop, caps: seq<nat>, mem: Memory, i: nat, k: nat): Frame
    requires k <= |loop.body|
  {
    Frame(caps, IvAt(loop, i), Zeros(|loop.phis|), Free(loop, caps, mem, i, k))
  }

  /** Instruction j accumulates into some phi. */
  predicate Accumulates(loop: Loop, j: nat) {
    exists r :: 0 <= r < |loop.phis| && loop.phis[r].latch == Val(j)
  }

  /** Loads see the entry memory: either nothing is stored or nothing is loaded. */
  predicate SameLoads(loop: Loop, mem: Memory, entry: Memory) {
    HasStore(loop) || mem == entry
  }

  /** vals agrees with the free values of iteration i, accumulations aside. */
  predicate Agrees(loop: Loop, caps: seq<nat>, entry: Memory, i: nat, vals: seq<nat>) {
    && |vals| <= |loop.body|
    && forall j {:trigger vals[j]} :: 0 <= j < |vals| && !Accumulates(loop, j) ==> vals[j] == Free(loop, caps, entry, i, |vals|)[j]
  }

  /** No operand that is neither a phi nor an accumulation can tell the frames apart. */
  lemma ValueFree(loop: Loop, caps: seq<nat>, entry: Memory, i: nat, phis: seq<nat>, vals: seq<nat>, o: Operand)
    requires Agrees(loop, caps, entry, i, vals)
    requires o.Phi? ==> |loop.phis| <= o.phi && |phis| == |loop.phis|
    requires o.Val? ==> !Accumulates(loop, o.instr)
    ensures Value(o, Frame(caps, IvAt(loop, i), phis, vals)) == Value(o, FreeFrame(loop, caps, entry, i, |vals|))
  {
    hide Accumulates;
  }

  lemma EvalFree(loop: Loop, caps: seq<nat>, entry: Memory, i: nat, phis: seq<nat>, vals: seq<nat>, mem: Memory)
    requires Partitionable(loop) && SameLoads(loop, mem, entry) && |phis| == |loop.phis|
    requires |vals| < |loop.body| && Agrees(loop, caps, entry, i, vals)
    requires !Accumulates(loop, |vals|)
    ensures
      var ins, f, g := loop.body[|vals|], Frame(caps, IvAt(loop, i), phis, vals), FreeFrame(loop, caps, entry, i, |vals|);
      && (forall o :: o in Operands(ins) ==> Value(o, f) == Value(o, g))
      && Eval(ins, f, mem) == Eval(ins, g, entry)
  {
    var k := |vals|;
    var ins, f, g := loop.body[k], Frame(caps, IvAt(loop, i), phis, vals), FreeFrame(loop, caps, entry, i, k);
    forall o | o in Operands(ins) ensures Value(o, f) == Value(o, g) {
      OperandFree(loop, k, o);
      ValueFree(loop, caps, entry, i, phis, vals, o);
    }
    match ins
    case Bin(_, _, a, b) => assert a in Operands(ins) && b in Operands(ins);
    case Pure(_, args) => assert Values(args, f) == Values(args, g);
    case Load(a) => assert a in Operands(ins);
    case Store(_, _) =>
  }

  /** No instruction reads an accumulation. */
  lemma NotRead(loop: Loop, k: nat, j: nat)
    requires Partitionable(loop) && k < |loop.body| && Val(j) in Operands(loop.body[k])
    ensures !Accumulates(loop, j)
  {
    forall q | 0 <= q < |loop.phis| ensures loop.phis[q].latch != Val(j) {
      assert IsReduction(loop, q);
    }
  }

  /** An instruction that accumulates nothing reads no phi and no accumulation. */
  lemma OperandFree(loop: Loop, k: nat, o: Operand)
    requires Partitionable(loop) && k < |loop.body| && !Accumulates(loop, k) && o in Operands(loop.body[k])
    ensures o.Phi? ==> o.phi >= |loop.phis|
    ensures o.Val? ==> !Accumulates(loop, o.instr)
  {
    assert o.Phi? && o.phi < |loop.phis| ==> !IsReduction(loop, o.phi);
    if o.Val? { NotRead(loop, k, o.instr); }
  }

  lemma {:induction false} FreePrefix(loop: Loop, caps: seq<nat>, entry: Memory, i: nat, k: nat)
    requires k < |loop.body|
    ensures Free(loop, caps, entry, i, k + 1)[..k] == Free(loop, caps, entry, i, k)
  {}

  /** One more free value: it comes from the entry memory, whatever the free run stored before. */
  lemma FreeNext(loop: Loop, caps: seq<nat>, entry: Memory, i: nat, k: nat)
    requires Partitionable(loop) && k < |loop.body|
    ensures Free(loop, caps, entry, i, k + 1)[k] == Eval(loop.body[k], FreeFrame(loop, caps, entry, i, k), entry)
  {
    var s := Execute(loop, caps, IvAt(loop, i), Zeros(|loop.phis|), entry, k);
    FreeMemory(loop, caps, IvAt(loop, i), Zeros(|loop.phis|), entry, k);
    if loop.body[k].Load? {
      assert HasLoad(loop);
      assert s.mem == entry;
    }
  }

  /** Without a store an iteration leaves memory alone. */
  lemma {:induction false} FreeMemory(loop: Loop, caps: seq<nat>, iv: nat, phis: seq<nat>, mem: Memory, k: nat)
    requires k <= |loop.body|
    ensures HasStore(loop) || Execute(loop, caps, iv, phis, mem, k).mem == mem
  {
    if k > 0 { FreeMemory(loop, caps, iv, phis, mem, k - 1); }
  }

  /** Executing the next instruction keeps the agreement, whatever the accumulators and whatever others stored. */
  lemma AgreesStep(loop: Loop, caps: seq<nat>, entry: Memory, i: nat, phis: seq<nat>, vals: seq<nat>, mem: Memory)
    requires Partitionable(loop) && SameLoads(loop, mem, entry) && |phis| == |loop.phis|
    requires |vals| < |loop.body| && Agrees(loop, caps, entry, i, vals)
    ensures Agrees(loop, caps, entry, i, vals + [Eval(loop.body[|vals|], Frame(caps, IvAt(loop, i), phis, vals), mem)])
  {
    hide Partitionable, SameLoads, Accumulates, Eval;
    var k := |vals|;
    var next := vals + [Eval(loop.body[k], Frame(caps, IvAt(loop, i), phis, vals), mem)];
    FreePrefix(loop, caps, entry, i, k);
    FreeNext(loop, caps, entry, i, k);
    forall j {:trigger next[j]} | 0 <= j < |next| && !Accumulates(loop, j)
      ensures next[j] == Free(loop, caps, entry, i, k + 1)[j]
    {
      if j == k {
        EvalFree(loop, caps, entry, i, phis, vals, mem);
      } else {
        assert next[j] == vals[j] && Free(loop, caps, entry, i, k + 1)[..k][j] == Free(loop, caps, entry, i, k)[j];
      }
    }
  }

  // ---------------------------------------------------------------- the recurrence of one phi

  function Binop(loop: Loop, r: nat): (b: nat)
    requires r < |loop.phis| && IsReduction(loop, r)
    ensures b < |loop.body| && loop.body[b].Bin?
  {
    loop.phis[r].latch.instr
  }

  /** The operand that is not the accumulator. */
  function TermOperand(loop: Loop, r: nat): Operand
    requires r < |loop.phis| && IsReduction(loop, r)
  {
    var ins := loop.body[Binop(loop, r)];
    if ins.lhs == Phi(r) then ins.rhs else ins.lhs
  }

  /** The accumulation applies the accumulator to itself. */
  predicate SelfOperand(loop: Loop, r: nat)
    requires r < |loop.phis| && IsReduction(loop, r)
  {
    TermOperand(loop, r) == Phi(r)
  }

  /** What iteration i contributes to phi r. */
  function Term(loop: Loop, caps: seq<nat>, entry: Memory, r: nat, i: nat): nat
    requires r < |loop.phis| && IsReduction(loop, r)
  {
    Value(TermOperand(loop, r), FreeFrame(loop, caps, entry, i, Binop(loop, r)))
  }

  /** One iteration's effect on accumulator r. */
  function Advance(loop: Loop, caps: seq<nat>, entry: Memory, r: nat, i: nat, acc: nat): nat
    requires r < |loop.phis| && IsReduction(loop, r)
  {
    var ins := loop.body[Binop(loop, r)];
    Apply(ins.op, ins.width, acc, if SelfOperand(loop, r) then acc else Term(loop, caps, entry, r, i))
  }

  /** No two phis share an accumulation, so the other operand is neither a phi nor an accumulation. */
  lemma TermFree(loop: Loop, r: nat)
    requires Partitionable(loop) && r < |loop.phis| && IsReduction(loop, r) && !SelfOperand(loop, r)
    ensures TermOperand(loop, r).Phi? ==> TermOperand(loop, r).phi >= |loop.phis|
    ensures TermOperand(loop, r).Val? ==> !Accumulates(loop, TermOperand(loop, r).instr)
  {
    var b, o := Binop(loop, r), TermOperand(loop, r);
    assert o in Operands(loop.body[b]);
    assert o.Phi? && o.phi < |loop.phis| ==> !IsReduction(loop, o.phi);
    if o.Val? { NotRead(loop, b, o.instr); }
  }

  /** The accumulating instruction advances its accumulator by the iteration's own term. */
  lemma BinopAdvances(loop: Loop, caps: seq<nat>, entry: Memory, i: nat, phis: seq<nat>, vals: seq<nat>, mem: Memory, r: nat)
    requires Partitionable(loop) && |phis| == |loop.phis| && r < |loop.phis| && IsReduction(loop, r)
    requires |vals| == Binop(loop, r) && Agrees(loop, caps, entry, i, vals)
    ensures Eval(loop.body[|vals|], Frame(caps, IvAt(loop, i), phis, vals), mem) == Advance(loop, caps, entry, r, i, phis[r])
  {
    hide Partitionable, Accumulates, Agrees, Apply;
    var f := Frame(caps, IvAt(loop, i), phis, vals);
    var ins := loop.body[|vals|];
    assert Value(Phi(r), f) == phis[r];
    if !SelfOperand(loop, r) {
      TermFree(loop, r);
      ValueFree(loop, caps, entry, i, phis, vals, TermOperand(loop, r));
      ApplyCommutes(ins.op, ins.width, phis[r], Term(loop, caps, entry, r, i));
    }
  }
}
