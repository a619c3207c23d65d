/** When the partitioned loop equals the sequential one: the two theorems and the inputs that show their conditions are needed. */
module LoopEquivalence {
  import opened Options
  import opened Reductions
  import opened Words
  import opened LoopIr
  import opened LoopValues
  import opened LoopWorkers
  import opened LoopPartition
  import opened PartitionRanges

  // ---------------------------------------------------------------- the serial combine

  /** The combine loop: partials folded in order from the identity, then the loop's own initial value once. */
  method Combine(op: Opcode, w: nat, init: nat, partials: seq<nat>) returns (final: nat)
    ensures final == Combined(op, w, init, partials)
  {
    var acc := Identity(op, w);
    var c := 0;
    while c < |partials|
      invariant 0 <= c <= |partials|
      invariant acc == Accumulate(op, w, Identity(op, w), partials[..c])
    {
      assert partials[..c + 1][..c] == partials[..c];
      acc := Apply(op, w, acc, partials[c]);
      c := c + 1;
    }
    assert partials[..c] == partials;
    final := Apply(op, w, init, acc);
  }

  function Combined(op: Opcode, w: nat, init: nat, partials: seq<nat>): nat {
    Apply(op, w, init, Accumulate(op, w, Identity(op, w), partials))
  }

  /** The partial results written back for phi r. */
  function Partials(job: Job, m: Machine, r: nat): (xs: seq<nat>)
    requires Inv(job, m) && r < |job.entry.loop.phis|
    ensures |xs| == |m.workers|
  {
    seq<nat>(|m.workers|, p requires 0 <= p < |m.workers| => At(m.workers[p].accs, r))
  }

  function OpOf(loop: Loop, r: nat): Opcode
    requires r < |loop.phis| && IsReduction(loop, r)
  {
    loop.body[Binop(loop, r)].op
  }

  /** What the exit block reads for phi r once every worker is done. */
  function PartitionedPhi(job: Job, m: Machine, r: nat): nat
    requires Inv(job, m) && r < |job.entry.loop.phis|
  {
    var phi := job.entry.loop.phis[r];
    AdmittedReduction(job.entry, r);
    Combined(OpOf(job.entry.loop, r), phi.width, phi.init, Partials(job, m, r))
  }

  lemma AdmittedReduction(e: Entry, r: nat)
    requires Admitted(e) && r < |e.loop.phis|
    ensures
      && IsReduction(e.loop, r) && IsAssociativeReductionOp(OpOf(e.loop, r))
      && e.loop.phis[r].width > 0 && e.loop.phis[r].init < Pow2(e.loop.phis[r].width)
      && e.loop.body[Binop(e.loop, r)].width == e.loop.phis[r].width
  {
    assert IsReduction(e.loop, r) && WellTypedPhi(e.loop, r);
  }

  /** A finished worker's partial is the fold of its slice. */
  lemma PartialIsFold(job: Job, m: Machine, r: nat, p: nat)
    requires Inv(job, m) && Finished(job, m) && r < |job.entry.loop.phis| && p < |m.workers|
    ensures IsReduction(job.entry.loop, r)
    ensures Partials(job, m, r)[p] == Folded(job.entry, r, job.starts[p], job.ends[p], Seed(job.entry.loop, r))
  {
    hide SameLoads, Folded, Tiles, Agrees, Accumulated;
    AdmittedReduction(job.entry, r);
    assert Done(job, m, p);
    assert WorkerInv(job, m.workers[p], p);
    assert |m.workers[p].accs| == |job.entry.loop.phis|;
    assert m.workers[p].accs[r] == Folded(job.entry, r, job.starts[p], m.workers[p].i, Seed(job.entry.loop, r));
  }

  lemma TermsSplit(e: Entry, r: nat, lo: nat, mid: nat, hi: nat)
    requires lo <= mid <= hi && r < |e.loop.phis| && IsReduction(e.loop, r)
    ensures Terms(e, r, lo, mid) + Terms(e, r, mid, hi) == Terms(e, r, lo, hi)
  {}

  /** The first k partials accumulate to the terms of the first k slices. */
  lemma {:induction false} PartialsAccumulate(job: Job, m: Machine, r: nat, k: nat)
    requires Inv(job, m) && Finished(job, m) && r < |job.entry.loop.phis| && 1 <= k <= |m.workers|
    requires IsReduction(job.entry.loop, r) && !SelfOperand(job.entry.loop, r)
    ensures
      var op, w := OpOf(job.entry.loop, r), job.entry.loop.phis[r].width;
      Accumulate(op, w, Identity(op, w), Partials(job, m, r)[..k]) == Accumulate(op, w, Identity(op, w), Terms(job.entry, r, 0, job.ends[k - 1]))
  {
    hide Inv, Finished, Apply, Identity, Terms, IsReduction, SelfOperand, Partials, Folded, Admitted, Tiles;
    var e := job.entry;
    var op, w := OpOf(e.loop, r), e.loop.phis[r].width;
    var partials := Partials(job, m, r);
    SliceOf(job, m, k - 1);
    var lo, hi := job.starts[k - 1], job.ends[k - 1];
    InvAdmitted(job, m);
    AdmittedReduction(e, r);
    PartialIsFold(job, m, r, k - 1);
    FoldedMeaning(e, r, lo, hi, Seed(e.loop, r));
    var slice := Terms(e, r, lo, hi);
    assert partials[k - 1] == Accumulate(op, w, Identity(op, w), slice);
    assert partials[..k][..k - 1] == partials[..k - 1];
    IdentitySmall(op, w);
    if k == 1 {
      assert partials[..k - 1] == [];
      AccumulateSlices(op, w, Identity(op, w), [], slice);
      assert [] + slice == slice;
    } else {
      SliceOf(job, m, k - 2);
      PartialsAccumulate(job, m, r, k - 1);
      AccumulateSlices(op, w, Identity(op, w), Terms(e, r, 0, lo), slice);
      TermsSplit(e, r, 0, lo, hi);
    }
  }

  lemma InvAdmitted(job: Job, m: Machine)
    requires Inv(job, m)
    ensures job.Valid() && Admitted(job.entry) && Partitionable(job.entry.loop)
    ensures |m.workers| == |job.starts| == |job.ends| > 0 && job.ends[|job.ends| - 1] == job.n
  {}

  lemma SliceOf(job: Job, m: Machine, p: nat)
    requires Inv(job, m) && p < |m.workers|
    ensures |m.workers| == |job.starts| == |job.ends| && job.starts[p] <= job.ends[p] <= job.n
    ensures job.starts[p] == if p == 0 then 0 else job.ends[p - 1]
  {}

  /** Ordinary reductions: in every interleaving the combined value is the sequential loop's. */
  lemma ReductionMatches(job: Job, schedule: seq<nat>, r: nat)
    requires job.Valid() && Finished(job, Run(job, Spawned(job), schedule)) && r < |job.entry.loop.phis|
    requires IsReduction(job.entry.loop, r) && !SelfOperand(job.entry.loop, r)
    ensures Inv(job, Run(job, Spawned(job), schedule))
    ensures PartitionedPhi(job, Run(job, Spawned(job), schedule), r) == Sequential(job.entry.loop, job.entry.caps, job.entry.mem, job.n).phis[r]
  {
    hide Finished, Apply, Identity, Term, IsReduction, SelfOperand, Partials, Admitted, Inv, Run, Spawned, Tiles, Folded;
    RunKeeps(job, schedule, 0);
    var m := Run(job, Spawned(job), schedule);
    var e := job.entry;
    InvAdmitted(job, m);
    AdmittedReduction(e, r);
    var op, w, init := OpOf(e.loop, r), e.loop.phis[r].width, e.loop.phis[r].init;
    var xs := Terms(e, r, 0, job.n);
    var partials := Partials(job, m, r);
    assert |partials| == |m.workers|;
    PartialsAccumulate(job, m, r, |m.workers|);
    assert partials[..|m.workers|] == partials;
    AccumulateFromIdentity(op, w, init, xs);
    SequentialMeaning(e, job.n, r, 0);
    FoldedMeaning(e, r, 0, job.n, init);
  }

  // ---------------------------------------------------------------- the accumulator applied to itself

  lemma IdentitySelf(op: Opcode, w: nat)
    requires IsAssociativeReductionOp(op) && w > 0
    ensures Apply(op, w, Identity(op, w), Identity(op, w)) == Identity(op, w)
  {
    IdentitySmall(op, w);
    IdentityApplies(op, w, Identity(op, w));
    DivMod(Identity(op, w), Pow2(w), 0, Identity(op, w));
  }

  lemma {:induction false} SelfApplyIdentity(op: Opcode, w: nat, n: nat)
    requires IsAssociativeReductionOp(op) && w > 0
    ensures SelfApply(op, w, Identity(op, w), n) == Identity(op, w)
  {
    hide Apply, Identity;
    if n > 0 {
      SelfApplyIdentity(op, w, n - 1);
      IdentitySelf(op, w);
    }
  }

  lemma {:induction false} AccumulateIdentities(op: Opcode, w: nat, xs: seq<nat>)
    requires IsAssociativeReductionOp(op) && w > 0 && forall k :: 0 <= k < |xs| ==> xs[k] == Identity(op, w)
    ensures Accumulate(op, w, Identity(op, w), xs) == Identity(op, w)
  {
    hide Apply, Identity;
    if xs != [] {
      AccumulateIdentities(op, w, xs[..|xs| - 1]);
      IdentitySelf(op, w);
    }
  }

  /** Such a reduction comes out of the combine as it went in, while the sequential loop applies the accumulator to itself n times. */
  lemma SelfReduction(job: Job, schedule: seq<nat>, r: nat)
    requires job.Valid() && Finished(job, Run(job, Spawned(job), schedule)) && r < |job.entry.loop.phis|
    requires IsReduction(job.entry.loop, r) && SelfOperand(job.entry.loop, r)
    ensures Inv(job, Run(job, Spawned(job), schedule))
    ensures PartitionedPhi(job, Run(job, Spawned(job), schedule), r) == job.entry.loop.phis[r].init
    ensures Sequential(job.entry.loop, job.entry.caps, job.entry.mem, job.n).phis[r]
         == SelfApply(OpOf(job.entry.loop, r), job.entry.loop.phis[r].width, job.entry.loop.phis[r].init, job.n)
  {
    hide Finished, Apply, Identity, Term, IsReduction, SelfOperand, Partials, Admitted, Inv, Run, Spawned, Folded, Tiles;
    RunKeeps(job, schedule, 0);
    var m := Run(job, Spawned(job), schedule);
    var e := job.entry;
    InvAdmitted(job, m);
    AdmittedReduction(e, r);
    var op, w, init := OpOf(e.loop, r), e.loop.phis[r].width, e.loop.phis[r].init;
    var partials := Partials(job, m, r);
    forall p | 0 <= p < |partials| ensures partials[p] == Identity(op, w) {
      PartialIsFold(job, m, r, p);
      SliceOf(job, m, p);
      FoldedMeaning(e, r, job.starts[p], job.ends[p], Seed(e.loop, r));
      SelfApplyIdentity(op, w, job.ends[p] - job.starts[p]);
    }
    AccumulateIdentities(op, w, partials);
    ApplyCommutes(op, w, init, Identity(op, w));
    IdentityApplies(op, w, init);
    DivMod(init, Pow2(w), 0, init);
    SequentialMeaning(e, job.n, r, 0);
    FoldedMeaning(e, r, 0, job.n, init);
  }

  /** The same job with another initial value for phi r. */
  function WithInit(job: Job, r: nat, x: nat): (job': Job)
    requires r < |job.entry.loop.phis|
    ensures |job'.entry.loop.phis| == |job.entry.loop.phis|
  {
    var loop := job.entry.loop;
    job.(entry := job.entry.(loop := loop.(phis := loop.phis[r := loop.phis[r].(init := x)])))
  }

  lemma WithInitReduction(job: Job, r: nat, x: nat, q: nat)
    requires r < |job.entry.loop.phis| && q < |job.entry.loop.phis|
    ensures IsReduction(WithInit(job, r, x).entry.loop, q) == IsReduction(job.entry.loop, q)
  {
    var a, b := job.entry.loop, WithInit(job, r, x).entry.loop;
    assert forall k :: 0 <= k < |a.phis| ==> a.phis[k].latch == b.phis[k].latch;
  }

  lemma WithInitValid(job: Job, r: nat, x: nat)
    requires job.Valid() && r < |job.entry.loop.phis| && x < Pow2(job.entry.loop.phis[r].width)
    ensures WithInit(job, r, x).Valid() && IsReduction(job.entry.loop, r) && IsReduction(WithInit(job, r, x).entry.loop, r)
    ensures SelfOperand(WithInit(job, r, x).entry.loop, r) == SelfOperand(job.entry.loop, r)
    ensures OpOf(WithInit(job, r, x).entry.loop, r) == OpOf(job.entry.loop, r)
  {
    hide IsReduction;
    var loop := WithInit(job, r, x).entry.loop;
    forall q | 0 <= q < |loop.phis| ensures IsReduction(loop, q) == IsReduction(job.entry.loop, q) {
      WithInitReduction(job, r, x, q);
    }
    forall q | 0 <= q < |loop.phis| ensures WellTypedPhi(loop, q) {
      WithInitTyped(job, r, x, q);
    }
    AdmittedReduction(job.entry, r);
  }

  lemma WithInitTyped(job: Job, r: nat, x: nat, q: nat)
    requires job.Valid() && r < |job.entry.loop.phis| && x < Pow2(job.entry.loop.phis[r].width) && q < |job.entry.loop.phis|
    ensures WellTypedPhi(WithInit(job, r, x).entry.loop, q)
  {
    WithInitReduction(job, r, x, q);
    AdmittedReduction(job.entry, q);
  }

  /** Phi r comes out right in every interleaving of a job. */
  ghost predicate PhiMatches(job: Job, r: nat)
    requires job.Valid() && r < |job.entry.loop.phis|
  {
    forall schedule {:trigger Run(job, Spawned(job), schedule)} :: Finished(job, Run(job, Spawned(job), schedule)) ==>
      && Inv(job, Run(job, Spawned(job), schedule))
      && PartitionedPhi(job, Run(job, Spawned(job), schedule), r) == Sequential(job.entry.loop, job.entry.caps, job.entry.mem, job.n).phis[r]
  }

  /** The operations under which an accumulator applied to itself stays what it is. */
  predicate Idempotent(op: Opcode, w: nat) { op.And? || op.Or? || (op.Mul? && w == 1) }

  /**
    * Partitioning computes phi r correctly from every initial value and in every interleaving
    * exactly when the accumulation does not apply the phi to itself, or does so with an idempotent operation.
    */
  lemma PhiMatchesExactly(job: Job, r: nat)
    requires job.Valid() && r < |job.entry.loop.phis|
    ensures IsReduction(job.entry.loop, r)
    ensures forall x :: 0 <= x < Pow2(job.entry.loop.phis[r].width) ==> WithInit(job, r, x).Valid()
    ensures (forall x {:trigger WithInit(job, r, x)} :: 0 <= x < Pow2(job.entry.loop.phis[r].width) ==> PhiMatches(WithInit(job, r, x), r))
       <==> (!SelfOperand(job.entry.loop, r) || Idempotent(OpOf(job.entry.loop, r), job.entry.loop.phis[r].width))
  {
    hide Job.Valid, IsReduction, SelfOperand, WithInit, OpOf, PhiMatches;
    AdmittedReduction(job.entry, r) by { ValidAdmitted(job); }
    var op, w := OpOf(job.entry.loop, r), job.entry.loop.phis[r].width;
    forall x | 0 <= x < Pow2(w) ensures WithInit(job, r, x).Valid() {
      WithInitValid(job, r, x);
    }
    if !SelfOperand(job.entry.loop, r) || Idempotent(op, w) {
      forall x {:trigger WithInit(job, r, x)} | 0 <= x < Pow2(w) ensures PhiMatches(WithInit(job, r, x), r) {
        WithInitValid(job, r, x);
        MatchesFrom(job, r, x);
      }
    } else {
      var x := SelfWitness(op);
      SelfApplyMoves(op, w, 1);
      WithInitValid(job, r, x);
      MissesFrom(job, r);
    }
  }

  lemma ValidAdmitted(job: Job)
    requires job.Valid()
    ensures Admitted(job.entry) && job.n > 0
  {}

  lemma WithInitPhi(job: Job, r: nat, x: nat)
    requires r < |job.entry.loop.phis|
    ensures WithInit(job, r, x).entry.loop.phis[r] == job.entry.loop.phis[r].(init := x) && WithInit(job, r, x).n == job.n
  {}

  lemma MatchesFrom(job: Job, r: nat, x: nat)
    requires job.Valid() && r < |job.entry.loop.phis| && x < Pow2(job.entry.loop.phis[r].width)
    requires IsReduction(job.entry.loop, r)
    requires !SelfOperand(job.entry.loop, r) || Idempotent(OpOf(job.entry.loop, r), job.entry.loop.phis[r].width)
    requires WithInit(job, r, x).Valid()
    ensures PhiMatches(WithInit(job, r, x), r)
  {
    hide Job.Valid, IsReduction, SelfOperand, WithInit, OpOf, Run, Spawned, Finished, Inv, PartitionedPhi, Sequential;
    WithInitValid(job, r, x);
    WithInitPhi(job, r, x);
    var job' := WithInit(job, r, x);
    forall schedule {:trigger Run(job', Spawned(job'), schedule)} | Finished(job', Run(job', Spawned(job'), schedule))
      ensures Inv(job', Run(job', Spawned(job'), schedule))
      ensures PartitionedPhi(job', Run(job', Spawned(job'), schedule), r)
           == Sequential(job'.entry.loop, job'.entry.caps, job'.entry.mem, job'.n).phis[r]
    {
      if SelfOperand(job'.entry.loop, r) {
        SelfReduction(job', schedule, r);
        AdmittedReduction(job'.entry, r) by { ValidAdmitted(job'); }
        SelfApplyKeeps(OpOf(job'.entry.loop, r), job'.entry.loop.phis[r].width, x, job'.n);
      } else {
        ReductionMatches(job', schedule, r);
      }
    }
  }

  lemma MissesFrom(job: Job, r: nat)
    requires job.Valid() && r < |job.entry.loop.phis| && IsReduction(job.entry.loop, r)
    requires SelfOperand(job.entry.loop, r) && !Idempotent(OpOf(job.entry.loop, r), job.entry.loop.phis[r].width)
    requires SelfWitness(OpOf(job.entry.loop, r)) < Pow2(job.entry.loop.phis[r].width)
    requires WithInit(job, r, SelfWitness(OpOf(job.entry.loop, r))).Valid()
    ensures !PhiMatches(WithInit(job, r, SelfWitness(OpOf(job.entry.loop, r))), r)
  {
    hide Job.Valid, IsReduction, SelfOperand, WithInit, OpOf, Run, Spawned, Finished, Inv, PartitionedPhi, Sequential;
    AdmittedReduction(job.entry, r) by { ValidAdmitted(job); }
    ValidAdmitted(job);
    var op, w := OpOf(job.entry.loop, r), job.entry.loop.phis[r].width;
    var x := SelfWitness(op);
    WithInitValid(job, r, x);
    WithInitPhi(job, r, x);
    var job' := WithInit(job, r, x);
    var schedule := FinishAll(job');
    SelfReduction(job', schedule, r);
    SelfApplyMoves(op, w, job.n);
    assert PartitionedPhi(job', Run(job', Spawned(job'), schedule), r) == x;
  }

  /** There is a schedule that finishes every job. */
  lemma FinishAll(job: Job) returns (schedule: seq<nat>)
    requires job.Valid()
    ensures Finished(job, Run(job, Spawned(job), schedule))
  {
    schedule := LastWorkerWins(job, 0);
  }

  // ---------------------------------------------------------------- memory

  function Slice(job: Job, p: nat, a: nat): Option<nat>
    requires job.Valid() && p < |job.starts|
  {
    LastStored(job.entry, job.starts[p], job.ends[p], a)
  }

  /** Any two slices that store at the same address store the same value there last. */
  ghost predicate LastStoresAgree(job: Job)
    requires job.Valid()
  {
    forall a, p, q {:trigger Slice(job, p, a), Slice(job, q, a)} ::
      0 <= p < |job.starts| && 0 <= q < |job.starts| && Slice(job, p, a).Some? && Slice(job, q, a).Some? ==>
        Slice(job, p, a) == Slice(job, q, a)
  }

  ghost predicate SameMemory(m: Memory, m': Memory) {
    forall a {:trigger Read(m, a)} {:trigger Read(m', a)} :: Read(m, a) == Read(m', a)
  }

  /** The sequential loop's last store at a is that of one of the first k slices, if any of them stores there. */
  lemma {:induction false} SlicesCover(job: Job, k: nat, a: nat) returns (p: nat)
    requires job.Valid() && 1 <= k <= |job.starts|
    ensures p < k && LastStored(job.entry, 0, job.ends[k - 1], a) == Slice(job, p, a)
    ensures Slice(job, p, a) == None ==> forall q :: 0 <= q < k ==> Slice(job, q, a) == None
  {
    hide LastStored, Admitted;
    p := 0;
    if k > 1 {
      var before := SlicesCover(job, k - 1, a);
      LastStoredSplit(job.entry, 0, job.starts[k - 1], job.ends[k - 1], a);
      p := if Slice(job, k - 1, a).Some? then k - 1 else before;
    }
  }

  lemma FinishedStores(job: Job, m: Machine, p: nat, a: nat)
    requires Inv(job, m) && Finished(job, m) && p < |m.workers|
    ensures StoredBy(job, m.workers[p], p, a) == Slice(job, p, a)
  {
    assert Done(job, m, p);
    assert WorkerInv(job, m.workers[p], p);
  }

  lemma SlicesAgree(job: Job, p: nat, q: nat, a: nat)
    requires job.Valid() && LastStoresAgree(job) && p < |job.starts| && q < |job.starts|
    ensures Slice(job, p, a).Some? && Slice(job, q, a).Some? ==> Slice(job, p, a) == Slice(job, q, a)
  {}

  /** One direction: agreement makes every interleaving end in the sequential memory. */
  lemma AgreeingMemory(job: Job, schedule: seq<nat>, a: nat)
    requires job.Valid() && LastStoresAgree(job) && Finished(job, Run(job, Spawned(job), schedule))
    ensures Read(Run(job, Spawned(job), schedule).mem, a) == Read(Sequential(job.entry.loop, job.entry.caps, job.entry.mem, job.n).mem, a)
  {
    hide Inv, Finished, Spawned, Run, Read, LastStored, Sequential, StoredBy, Slice, SameLoads, LastStoresAgree, Partitionable, Job.Valid, Tiles, Folded;
    RunKeeps(job, schedule, a);
    var m := Run(job, Spawned(job), schedule);
    AdmittedPartitionable(job.entry) by { ValidAdmitted(job); }
    SequentialMeaning(job.entry, job.n, |job.entry.loop.phis|, a);
    InvAdmitted(job, m);
    var s := SlicesCover(job, |job.starts|, a);
    assert Slice(job, s, a) == LastStored(job.entry, 0, job.n, a);
    if p :| 0 <= p < |m.workers| && StoredBy(job, m.workers[p], p, a) == Some(Read(m.mem, a)) {
      FinishedStores(job, m, p, a);
      SlicesAgree(job, p, s, a);
    } else {
      assert StoredBy(job, m.workers[s], s, a) == None;
      FinishedStores(job, m, s, a);
    }
  }

  /** The other: let a slice that disagrees with the sequential memory finish last. */
  lemma DisagreeingMemory(job: Job, p: nat, q: nat, a: nat) returns (schedule: seq<nat>)
    requires job.Valid() && p < |job.starts| && q < |job.starts|
    requires Slice(job, p, a).Some? && Slice(job, q, a).Some? && Slice(job, p, a) != Slice(job, q, a)
    ensures Finished(job, Run(job, Spawned(job), schedule))
    ensures Read(Run(job, Spawned(job), schedule).mem, a) != Read(Sequential(job.entry.loop, job.entry.caps, job.entry.mem, job.n).mem, a)
  {
    hide Inv, Finished, Spawned, Run, Read, LastStored, Sequential, StoredBy, Slice;
    AdmittedPartitionable(job.entry) by { ValidAdmitted(job); }
    SequentialMeaning(job.entry, job.n, |job.entry.loop.phis|, a);
    var s := SlicesCover(job, |job.starts|, a);
    var late := if Slice(job, p, a) == Slice(job, s, a) then q else p;
    schedule := LastWorkerWins(job, late);
    var m := Run(job, Spawned(job), schedule);
    InvAdmitted(job, m);
    FinishedStores(job, m, late, a);
    assert Owns(job, m, late, a);
    assert job.ends[|job.starts| - 1] == job.n;
  }

  /** The partitioned loop leaves the sequential loop's memory in every interleaving exactly when last stores agree. */
  lemma MemoryMatchesExactly(job: Job)
    requires job.Valid()
    ensures
      (forall schedule {:trigger Run(job, Spawned(job), schedule)} :: Finished(job, Run(job, Spawned(job), schedule)) ==>
         SameMemory(Run(job, Spawned(job), schedule).mem, Sequential(job.entry.loop, job.entry.caps, job.entry.mem, job.n).mem))
      <==> LastStoresAgree(job)
  {
    hide Job.Valid, Finished, Spawned, Run, Read, Sequential, Slice;
    if LastStoresAgree(job) {
      forall schedule {:trigger Run(job, Spawned(job), schedule)} | Finished(job, Run(job, Spawned(job), schedule))
        ensures SameMemory(Run(job, Spawned(job), schedule).mem, Sequential(job.entry.loop, job.entry.caps, job.entry.mem, job.n).mem)
      {
        forall a ensures Read(Run(job, Spawned(job), schedule).mem, a) == Read(Sequential(job.entry.loop, job.entry.caps, job.entry.mem, job.n).mem, a) {
          AgreeingMemory(job, schedule, a);
        }
      }
    } else {
      var a, p, q :| 0 <= p < |job.starts| && 0 <= q < |job.starts| && Slice(job, p, a).Some? && Slice(job, q, a).Some?
                     && Slice(job, p, a) != Slice(job, q, a);
      var schedule := DisagreeingMemory(job, p, q, a);
      assert Finished(job, Run(job, Spawned(job), schedule));
    }
  }

  /** No address is stored to by iterations of two different slices. */
  ghost predicate DisjointStores(job: Job)
    requires job.Valid()
  {
    forall a, p, q {:trigger Slice(job, p, a), Slice(job, q, a)} ::
      0 <= p < |job.starts| && 0 <= q < |job.starts| && Slice(job, p, a).Some? && Slice(job, q, a).Some? ==> p == q
  }

  lemma DisjointAgree(job: Job)
    requires job.Valid() && DisjointStores(job)
    ensures LastStoresAgree(job)
  {}

  /** Phi r is not combined with itself, or by an operation for which that does not matter. */
  predicate Tolerated(job: Job, r: nat)
    requires r < |job.entry.loop.phis|
  {
    IsReduction(job.entry.loop, r) && (!SelfOperand(job.entry.loop, r) || Idempotent(OpOf(job.entry.loop, r), job.entry.loop.phis[r].width))
  }

  /** One tolerated phi. */
  lemma PhiIsSequential(job: Job, schedule: seq<nat>, r: nat)
    requires job.Valid() && Finished(job, Run(job, Spawned(job), schedule)) && r < |job.entry.loop.phis| && Tolerated(job, r)
    ensures Inv(job, Run(job, Spawned(job), schedule))
    ensures PartitionedPhi(job, Run(job, Spawned(job), schedule), r) == Sequential(job.entry.loop, job.entry.caps, job.entry.mem, job.n).phis[r]
  {
    hide Job.Valid, Finished, Spawned, Run, Read, Sequential, Slice, Inv, PartitionedPhi, OpOf, SelfOperand, IsReduction;
    AdmittedReduction(job.entry, r) by { ValidAdmitted(job); }
    if SelfOperand(job.entry.loop, r) {
      SelfReduction(job, schedule, r);
      SelfApplyKeeps(OpOf(job.entry.loop, r), job.entry.loop.phis[r].width, job.entry.loop.phis[r].init, job.n);
    } else {
      ReductionMatches(job, schedule, r);
    }
  }

  /** The whole loop: when last stores agree every interleaving leaves the sequential memory and the sequential value of every tolerated phi. */
  lemma PartitionedLoopIsSequential(job: Job, schedule: seq<nat>)
    requires job.Valid() && LastStoresAgree(job) && Finished(job, Run(job, Spawned(job), schedule))
    ensures
      var m, s := Run(job, Spawned(job), schedule), Sequential(job.entry.loop, job.entry.caps, job.entry.mem, job.n);
      && SameMemory(m.mem, s.mem) && Inv(job, m)
      && forall r {:trigger s.phis[r]} :: 0 <= r < |job.entry.loop.phis| && Tolerated(job, r) ==> PartitionedPhi(job, m, r) == s.phis[r]
  {
    hide Job.Valid, Finished, Spawned, Run, Read, Sequential, Slice, Inv, PartitionedPhi, Tolerated, LastStoresAgree;
    MemoryMatchesExactly(job);
    RunKeeps(job, schedule, 0);
    forall r | 0 <= r < |job.entry.loop.phis| && Tolerated(job, r)
      ensures PartitionedPhi(job, Run(job, Spawned(job), schedule), r) == Sequential(job.entry.loop, job.entry.caps, job.entry.mem, job.n).phis[r]
    {
      PhiIsSequential(job, schedule, r);
    }
  }

  /** With disjoint stores nothing need be said of what they store. */
  lemma DisjointLoopIsSequential(job: Job, schedule: seq<nat>)
    requires job.Valid() && DisjointStores(job) && Finished(job, Run(job, Spawned(job), schedule))
    ensures
      var m, s := Run(job, Spawned(job), schedule), Sequential(job.entry.loop, job.entry.caps, job.entry.mem, job.n);
      && SameMemory(m.mem, s.mem) && Inv(job, m)
      && forall r {:trigger s.phis[r]} :: 0 <= r < |job.entry.loop.phis| && Tolerated(job, r) ==> PartitionedPhi(job, m, r) == s.phis[r]
  {
    DisjointAgree(job);
    hide *;
    PartitionedLoopIsSequential(job, schedule);
  }

  /** s = s + s over bytes, from 1, run once: an admitted job. */
  function SelfSum(): Job {
    Job(Entry(Loop([Bin(Add, 8, Phi(0), Phi(0))], [PhiNode(8, 1, Val(0))], 64), [], map[]), 1, [0], [1])
  }

  lemma SelfSumReduces()
    ensures SelfSum().Valid() && IsReduction(SelfSum().entry.loop, 0) && SelfOperand(SelfSum().entry.loop, 0)
    ensures OpOf(SelfSum().entry.loop, 0) == Add && Pow2(8) == 256
  {
    assert Pow2(4) == 16;
    assert Pow2(8) == 256;
    WordSize();
    assert Operands(Bin(Add, 8, Phi(0), Phi(0))) == [Phi(0), Phi(0)];
    assert IsReduction(SelfSum().entry.loop, 0);
  }

  /** The loop ends with 2, its partitioned form with 1. */
  lemma SelfSumDisagrees() returns (schedule: seq<nat>)
    ensures SelfSum().Valid() && Finished(SelfSum(), Run(SelfSum(), Spawned(SelfSum()), schedule))
    ensures Inv(SelfSum(), Run(SelfSum(), Spawned(SelfSum()), schedule))
    ensures PartitionedPhi(SelfSum(), Run(SelfSum(), Spawned(SelfSum()), schedule), 0) == 1
    ensures Sequential(SelfSum().entry.loop, [], map[], 1).phis[0] == 2
  {
    var job := SelfSum();
    SelfSumReduces();
    assert job.n == 1 && job.entry.loop.phis[0].init == 1 && job.entry.loop.phis[0].width == 8;
    hide Job.Valid, Finished, Spawned, Run, Sequential, Inv, PartitionedPhi, OpOf, SelfOperand, IsReduction, Pow2;
    schedule := FinishAll(job);
    SelfReduction(job, schedule, 0);
    assert SelfApply(Add, 8, 1, 1) == Apply(Add, 8, SelfApply(Add, 8, 1, 0), SelfApply(Add, 8, 1, 0));
  }

  /** A loop the gate admits although every iteration stores to the same address, cut into two slices of one iteration. */
  function SharedAddress(): Job {
    Job(Entry(Loop([Store(Const(0), Iv)], [], 64), [], map[]), 2, [0, 1], [1, 2])
  }

  lemma SharedAddressDisagrees()
    ensures SharedAddress().Valid() && !LastStoresAgree(SharedAddress())
  {
    var job := SharedAddress();
    WordSize();
    assert Slice(job, 0, 0) == Some(0) by { assert StoreOf(job.entry, 0, 0) == Some((0, 0)); }
    assert Slice(job, 1, 0) == Some(1) by { assert StoreOf(job.entry, 1, 0) == Some((0, 1)); }
  }
}
