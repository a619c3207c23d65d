/** Two-block counted loops: their meaning run in sequence, and the gate that admits them to partitioning. */
module LoopIr {
  import opened Options
  import opened Reductions
  import opened Words

  /** `Captured` is a value from outside the loop, `Iv` the induction variable, `Phi` another header phi, `Val` a body instruction. */
  datatype Operand = Const(value: nat) | Captured(capture: nat) | Iv | Phi(phi: nat) | Val(instr: nat)

  /** `Pure` is any instruction that neither touches memory nor has an effect. */
  datatype Instr =
    | Bin(op: Opcode, width: nat, lhs: Operand, rhs: Operand)
    | Pure(fn: seq<nat> -> nat, args: seq<Operand>)
    | Load(addr: Operand)
    | Store(addr: Operand, stored: Operand)

  datatype PhiNode = PhiNode(width: nat, init: nat, latch: Operand)

  /** The header holds the phis and the exit test; `body` is the one other block. */
  datatype Loop = Loop(body: seq<Instr>, phis: seq<PhiNode>, ivWidth: nat)

  type Memory = map<nat, nat>

  function Read(mem: Memory, a: nat): nat { if a in mem then mem[a] else 0 }

  /** What one iteration can see: captured values, induction variable, header phis, results so far. */
  datatype Frame = Frame(caps: seq<nat>, iv: nat, phis: seq<nat>, vals: seq<nat>)

  function At(s: seq<nat>, k: nat): nat { if k < |s| then s[k] else 0 }

  function Value(o: Operand, f: Frame): nat {
    match o
    case Const(v) => v
    case Captured(k) => At(f.caps, k)
    case Iv => f.iv
    case Phi(r) => At(f.phis, r)
    case Val(j) => At(f.vals, j)
  }

  function Values(os: seq<Operand>, f: Frame): seq<nat> {
    seq(|os|, k requires 0 <= k < |os| => Value(os[k], f))
  }

  function Eval(ins: Instr, f: Frame, mem: Memory): nat {
    match ins
    case Bin(op, w, a, b) => Apply(op, w, Value(a, f), Value(b, f))
    case Pure(fn, args) => fn(Values(args, f))
    case Load(a) => Read(mem, Value(a, f))
    case Store(_, _) => 0
  }

  function Effect(ins: Instr, f: Frame, mem: Memory): Memory {
    if ins.Store? then mem[Value(ins.addr, f) := Value(ins.stored, f)] else mem
  }

  /** An iteration after its first k instructions. */
  datatype Progress = Progress(vals: seq<nat>, mem: Memory)

  function Execute(loop: Loop, caps: seq<nat>, iv: nat, phis: seq<nat>, mem: Memory, k: nat): (s: Progress)
    requires k <= |loop.body|
    ensures |s.vals| == k
  {
    if k == 0 then Progress([], mem)
    else
      var s := Execute(loop, caps, iv, phis, mem, k - 1);
      var f := Frame(caps, iv, phis, s.vals);
      Progress(s.vals + [Eval(loop.body[k - 1], f, s.mem)], Effect(loop.body[k - 1], f, s.mem))
  }

  function Latches(loop: Loop, f: Frame): (r: seq<nat>)
    ensures |r| == |loop.phis|
  {
    seq(|loop.phis|, r requires 0 <= r < |loop.phis| => Value(loop.phis[r].latch, f))
  }

  function Inits(loop: Loop): (r: seq<nat>)
    ensures |r| == |loop.phis|
  {
    seq(|loop.phis|, r requires 0 <= r < |loop.phis| => loop.phis[r].init)
  }

  /** The canonical induction variable in iteration i. */
  function IvAt(loop: Loop, i: nat): nat { i % Pow2(loop.ivWidth) }

  datatype LoopState = LoopState(phis: seq<nat>, mem: Memory)

  /** The original loop after n iterations. */
  function Sequential(loop: Loop, caps: seq<nat>, mem: Memory, n: nat): (s: LoopState)
    ensures |s.phis| == |loop.phis|
  {
    if n == 0 then LoopState(Inits(loop), mem)
    else
      var s := Sequential(loop, caps, mem, n - 1);
      var e := Execute(loop, caps, IvAt(loop, n - 1), s.phis, s.mem, |loop.body|);
      LoopState(Latches(loop, Frame(caps, IvAt(loop, n - 1), s.phis, e.vals)), e.mem)
  }

  // ---------------------------------------------------------------- the gate

  function Operands(ins: Instr): seq<Operand> {
    match ins
    case Bin(_, _, a, b) => [a, b]
    case Pure(_, args) => args
    case Load(a) => [a]
    case Store(a, v) => [a, v]
  }

  predicate HasLoad(loop: Loop) { exists k :: 0 <= k < |loop.body| && loop.body[k].Load? }

  predicate HasStore(loop: Loop) { exists k :: 0 <= k < |loop.body| && loop.body[k].Store? }

  /** Phi r is carried by one associative operation, and nothing else in the loop reads either of the two. */
  predicate IsReduction(loop: Loop, r: nat)
    requires r < |loop.phis|
  {
    && loop.phis[r].latch.Val?
    && var b := loop.phis[r].latch.instr;
    && b < |loop.body| && loop.body[b].Bin? && IsAssociativeReductionOp(loop.body[b].op)
    && (loop.body[b].lhs == Phi(r) || loop.body[b].rhs == Phi(r))
    && (forall k :: 0 <= k < |loop.body| && k != b ==> Phi(r) !in Operands(loop.body[k]))
    && (forall q :: 0 <= q < |loop.phis| ==> loop.phis[q].latch != Phi(r))
    && (forall k :: 0 <= k < |loop.body| ==> Val(b) !in Operands(loop.body[k]))
    && (forall q :: 0 <= q < |loop.phis| && q != r ==> loop.phis[q].latch != Val(b))
  }

  /** Where the loop reads a value: an instruction, or the edge back to the header. */
  datatype Reader = InBody(instr: nat) | AtLatch(phi: nat)

  function Readers(loop: Loop, o: Operand): set<Reader> {
    (set k: nat | k < |loop.body| && o in Operands(loop.body[k]) :: InBody(k)) + (set q: nat | q < |loop.phis| && loop.phis[q].latch == o :: AtLatch(q))
  }

  /** A reduction is exactly a phi that one instruction reads, of an operation that order and grouping do not matter to, the result of which goes back to the phi and nowhere else. */
  lemma ReductionExactly(loop: Loop, r: nat)
    requires r < |loop.phis|
    ensures IsReduction(loop, r) <==>
              exists b: nat :: b < |loop.body| && loop.body[b].Bin? && Reorders(loop.body[b].op)
                               && Readers(loop, Phi(r)) == {InBody(b)} && Readers(loop, Val(b)) == {AtLatch(r)}
  {
    hide Reorders, IsAssociativeReductionOp;
    if IsReduction(loop, r) {
      var b := loop.phis[r].latch.instr;
      AcceptedExactly(loop.body[b].op);
      assert Phi(r) in Operands(loop.body[b]);
      assert Readers(loop, Phi(r)) == {InBody(b)};
      assert Readers(loop, Val(b)) == {AtLatch(r)};
    }
    if b: nat :| b < |loop.body| && loop.body[b].Bin? && Reorders(loop.body[b].op)
                 && Readers(loop, Phi(r)) == {InBody(b)} && Readers(loop, Val(b)) == {AtLatch(r)} {
      AcceptedExactly(loop.body[b].op);
      OnlyReaders(loop, r, b);
    }
  }

  lemma OnlyReaders(loop: Loop, r: nat, b: nat)
    requires r < |loop.phis| && b < |loop.body|
    requires Readers(loop, Phi(r)) == {InBody(b)} && Readers(loop, Val(b)) == {AtLatch(r)}
    ensures loop.phis[r].latch == Val(b) && Phi(r) in Operands(loop.body[b])
    ensures forall k :: 0 <= k < |loop.body| && k != b ==> Phi(r) !in Operands(loop.body[k])
    ensures forall q :: 0 <= q < |loop.phis| ==> loop.phis[q].latch != Phi(r)
    ensures forall k :: 0 <= k < |loop.body| ==> Val(b) !in Operands(loop.body[k])
    ensures forall q :: 0 <= q < |loop.phis| && q != r ==> loop.phis[q].latch != Val(b)
  {
    ReadersAre(loop, Phi(r));
    ReadersAre(loop, Val(b));
    hide Readers, Operands;
  }

  lemma ReadersAre(loop: Loop, o: Operand)
    ensures forall k: nat :: InBody(k) in Readers(loop, o) <==> k < |loop.body| && o in Operands(loop.body[k])
    ensures forall q: nat :: AtLatch(q) in Readers(loop, o) <==> q < |loop.phis| && loop.phis[q].latch == o
  {}

  /** What the candidate gate admits: no mix of loads and stores, and every phi a reduction. */
  predicate Partitionable(loop: Loop) {
    && !(HasLoad(loop) && HasStore(loop))
    && (forall r :: 0 <= r < |loop.phis| ==> IsReduction(loop, r))
  }

  /** What the instruction set's typing says of the phis: positive widths, initial values that fit, and one type per reduction. */
  predicate WellTyped(loop: Loop) {
    forall r :: 0 <= r < |loop.phis| ==> WellTypedPhi(loop, r)
  }

  predicate WellTypedPhi(loop: Loop, r: nat)
    requires r < |loop.phis|
  {
    && loop.phis[r].width > 0
    && loop.phis[r].init < Pow2(loop.phis[r].width)
    && (IsReduction(loop, r) ==> loop.body[loop.phis[r].latch.instr].width == loop.phis[r].width)
  }

  datatype Reduction = Reduction(phi: nat, binop: nat, op: Opcode, term: Operand)

  /** The reduction names its phi, its instruction with its operation, and the operand that is not the phi. */
  predicate Describes(loop: Loop, r: nat, red: Reduction)
    requires r < |loop.phis| && IsReduction(loop, r)
  {
    var b := loop.phis[r].latch.instr;
    && red.phi == r && red.binop == b && red.op == loop.body[b].op
    && red.term == if loop.body[b].lhs == Phi(r) then loop.body[b].rhs else loop.body[b].lhs
  }

  method Uses(ins: Instr, o: Operand) returns (found: bool)
    ensures found == (o in Operands(ins))
  {
    var ops := Operands(ins);
    var k := 0;
    while k < |ops|
      invariant 0 <= k <= |ops| && o !in ops[..k]
    {
      if ops[k] == o { return true; }
      k := k + 1;
    }
    assert ops[..k] == ops;
    return false;
  }

  /** The scan for an associative recurrence on one phi. */
  method DetectReduction(loop: Loop, r: nat) returns (red: Option<Reduction>)
    requires r < |loop.phis|
    ensures red.Some? <==> IsReduction(loop, r)
    ensures red.Some? ==> Describes(loop, r, red.value)
  {
    var latch := loop.phis[r].latch;
    if !latch.Val? || latch.instr >= |loop.body| || !loop.body[latch.instr].Bin? { return None; }
    var b := latch.instr;
    var binop := loop.body[b];
    if !IsAssociativeReductionOp(binop.op) { return None; }
    var term;
    if binop.lhs == Phi(r) {
      term := binop.rhs;
    } else if binop.rhs == Phi(r) {
      term := binop.lhs;
    } else {
      return None;
    }
    var k := 0;
    while k < |loop.body|
      invariant 0 <= k <= |loop.body|
      invariant forall j :: 0 <= j < k && j != b ==> Phi(r) !in Operands(loop.body[j])
      invariant forall j :: 0 <= j < k ==> Val(b) !in Operands(loop.body[j])
    {
      var usesPhi := Uses(loop.body[k], Phi(r));
      var usesBinop := Uses(loop.body[k], Val(b));
      if (usesPhi && k != b) || usesBinop { return None; }
      k := k + 1;
    }
    var q := 0;
    while q < |loop.phis|
      invariant 0 <= q <= |loop.phis|
      invariant forall p :: 0 <= p < q ==> loop.phis[p].latch != Phi(r)
      invariant forall p :: 0 <= p < q && p != r ==> loop.phis[p].latch != Val(b)
    {
      if loop.phis[q].latch == Phi(r) || (loop.phis[q].latch == Val(b) && q != r) { return None; }
      q := q + 1;
    }
    return Some(Reduction(r, b, binop.op, term));
  }

  /** The candidate gate: the loop's reductions in phi order, or None to leave it serial. */
  method CandidateReductions(loop: Loop) returns (reds: Option<seq<Reduction>>)
    ensures reds.Some? <==> Partitionable(loop)
    ensures reds.Some? ==> |reds.value| == |loop.phis| && forall r :: 0 <= r < |loop.phis| ==> IsReduction(loop, r) && Describes(loop, r, reds.value[r])
  {
    var hasLoad, hasStore := false, false;
    var k := 0;
    while k < |loop.body|
      invariant 0 <= k <= |loop.body|
      invariant hasLoad == exists j :: 0 <= j < k && loop.body[j].Load?
      invariant hasStore == exists j :: 0 <= j < k && loop.body[j].Store?
      invariant !(hasLoad && hasStore)
    {
      if loop.body[k].Load? { hasLoad := true; }
      else if loop.body[k].Store? { hasStore := true; }
      if hasLoad && hasStore { return None; }
      k := k + 1;
    }
    var found: seq<Reduction> := [];
    var r := 0;
    while r < |loop.phis|
      invariant 0 <= r <= |loop.phis| && |found| == r
      invariant forall q {:trigger found[q]} {:trigger IsReduction(loop, q)} :: 0 <= q < r ==> IsReduction(loop, q) && Describes(loop, q, found[q])
    {
      var red := DetectReduction(loop, r);
      if red.None? { return None; }
      found := found + [red.value];
      r := r + 1;
    }
    return Some(found);
  }
}
