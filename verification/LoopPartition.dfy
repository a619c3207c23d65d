/** Every interleaving of the workers against the sequential loop: reductions always, memory exactly when last stores agree. */
module LoopPartition {
  import opened Options
  import opened Reductions
  import opened Words
  import opened LoopIr
  import opened LoopValues
  import opened LoopWorkers
  import opened PartitionRanges

  /** An admitted loop cut into slices of [0, n). */
  datatype Job = Job(entry: Entry, n: nat, starts: seq<nat>, ends: seq<nat>) {
    predicate Valid() { Admitted(entry) && Tiles(n, starts, ends) }
  }

  /** A worker in iteration i before instruction |vals|. */
  datatype Worker = Worker(i: nat, vals: seq<nat>, accs: seq<nat>)

  datatype Machine = Machine(mem: Memory, workers: seq<Worker>)

  /** Accumulators start from their operation's identity, not from the loop's initial values. */
  function Seeds(loop: Loop): (s: seq<nat>)
    requires Partitionable(loop)
    ensures |s| == |loop.phis|
  {
    seq(|loop.phis|, r requires 0 <= r < |loop.phis| => Seed(loop, r))
  }

  function Seed(loop: Loop, r: nat): nat
    requires r < |loop.phis| && IsReduction(loop, r)
  {
    Identity(loop.body[Binop(loop, r)].op, loop.body[Binop(loop, r)].width)
  }

  function Spawned(job: Job): (m: Machine)
    requires job.Valid()
    ensures |m.workers| == |job.starts|
  {
    Machine(job.entry.mem, seq(|job.starts|, p requires 0 <= p < |job.starts| => Worker(job.starts[p], [], Seeds(job.entry.loop))))
  }

  /** One step of worker p: its next instruction, or the back edge; a worker past its slice, or absent, does nothing. */
  function Step(job: Job, m: Machine, p: nat): Machine
    requires job.Valid() && |m.workers| == |job.starts|
  {
    if p >= |m.workers| || m.workers[p].i >= job.ends[p] then m
    else
      var w, e := m.workers[p], job.entry;
      var f := Frame(e.caps, IvAt(e.loop, w.i), w.accs, w.vals);
      if |w.vals| < |e.loop.body| then
        var ins := e.loop.body[|w.vals|];
        Machine(Effect(ins, f, m.mem), m.workers[p := w.(vals := w.vals + [Eval(ins, f, m.mem)])])
      else
        Machine(m.mem, m.workers[p := Worker(w.i + 1, [], Latches(e.loop, f))])
  }

  /** The workers stepping in the order of the schedule. */
  function Run(job: Job, m: Machine, schedule: seq<nat>): (m': Machine)
    requires job.Valid() && |m.workers| == |job.starts|
    ensures |m'.workers| == |m.workers|
  {
    if schedule == [] then m
    else Step(job, Run(job, m, schedule[..|schedule| - 1]), schedule[|schedule| - 1])
  }

  predicate Done(job: Job, m: Machine, p: nat) {
    p < |m.workers| && p < |job.ends| && m.workers[p].i == job.ends[p]
  }

  predicate Finished(job: Job, m: Machine) {
    forall p :: 0 <= p < |m.workers| ==> Done(job, m, p)
  }

  // ---------------------------------------------------------------- what every step keeps

  predicate WorkerInv(job: Job, w: Worker, p: nat)
    requires job.Valid() && p < |job.starts|
  {
    var e := job.entry;
    && job.starts[p] <= w.i <= job.ends[p]
    && |w.vals| <= |e.loop.body| && (w.i == job.ends[p] ==> w.vals == [])
    && Honest(e, w.i, w.accs, w.vals)
    && forall r {:trigger w.accs[r]} :: 0 <= r < |w.accs| ==> w.accs[r] == Folded(e, r, job.starts[p], w.i, Seed(e.loop, r))
  }

  /** What worker p has last stored at a so far. */
  function StoredBy(job: Job, w: Worker, p: nat, a: nat): Option<nat>
    requires job.Valid() && p < |job.starts|
  {
    StoredSince(job.entry, job.starts[p], w, a)
  }

  function StoredSince(e: Entry, start: nat, w: Worker, a: nat): Option<nat> {
    var k := if |w.vals| <= |e.loop.body| then |w.vals| else |e.loop.body|;
    LoopWorkers.Or(LastInIteration(e, w.i, k, a), LastStored(e, start, w.i, a))
  }

  predicate Inv(job: Job, m: Machine) {
    && job.Valid() && |m.workers| == |job.starts|
    && SameLoads(job.entry.loop, m.mem, job.entry.mem)
    && forall p {:trigger m.workers[p]} :: 0 <= p < |m.workers| ==> WorkerInv(job, m.workers[p], p)
  }

  /** Every address holds its entry value if nobody stored there, and otherwise somebody's last store. */
  predicate Explained(job: Job, m: Machine, a: nat)
    requires Inv(job, m)
  {
    || (exists p {:trigger m.workers[p]} :: 0 <= p < |m.workers| && StoredBy(job, m.workers[p], p, a) == Some(Read(m.mem, a)))
    || (Read(m.mem, a) == Read(job.entry.mem, a) && forall p {:trigger m.workers[p]} :: 0 <= p < |m.workers| ==> StoredBy(job, m.workers[p], p, a) == None)
  }

  /** Memory holds worker p's last store wherever it stored. */
  predicate Owns(job: Job, m: Machine, p: nat, a: nat)
    requires Inv(job, m) && p < |m.workers|
  {
    StoredBy(job, m.workers[p], p, a).Some? ==> StoredBy(job, m.workers[p], p, a) == Some(Read(m.mem, a))
  }

  lemma InstrKeepsWorker(job: Job, w: Worker, p: nat, mem: Memory)
    requires job.Valid() && p < |job.starts| && WorkerInv(job, w, p) && w.i < job.ends[p]
    requires |w.vals| < |job.entry.loop.body| && SameLoads(job.entry.loop, mem, job.entry.mem)
    ensures
      var f := Frame(job.entry.caps, IvAt(job.entry.loop, w.i), w.accs, w.vals);
      WorkerInv(job, w.(vals := w.vals + [Eval(job.entry.loop.body[|w.vals|], f, mem)]), p)
  {
    hide Honest, SameLoads, Eval, Admitted, Tiles;
    assert Partitionable(job.entry.loop) by { assert Admitted(job.entry); AdmittedPartitionable(job.entry); }
    HonestStep(job.entry, w.i, w.accs, w.vals, mem);
  }

  lemma AdmittedPartitionable(e: Entry)
    requires Admitted(e)
    ensures Partitionable(e.loop)
  {}

  lemma LatchKeepsWorker(job: Job, w: Worker, p: nat)
    requires job.Valid() && p < |job.starts| && WorkerInv(job, w, p) && w.i < job.ends[p]
    requires |w.vals| == |job.entry.loop.body|
    ensures WorkerInv(job, Worker(w.i + 1, [], Latches(job.entry.loop, Frame(job.entry.caps, IvAt(job.entry.loop, w.i), w.accs, w.vals))), p)
  {
    hide Latches, Advance, IsReduction, Agrees, Accumulated, Tiles, Seed;
    var e := job.entry;
    var accs := Latches(e.loop, Frame(e.caps, IvAt(e.loop, w.i), w.accs, w.vals));
    HonestStart(e, w.i + 1, accs);
    forall r {:trigger accs[r]} | 0 <= r < |accs| ensures accs[r] == Folded(e, r, job.starts[p], w.i + 1, Seed(e.loop, r)) {
      HonestLatch(e, w.i, w.accs, w.vals, r);
      assert w.accs[r] == Folded(e, r, job.starts[p], w.i, Seed(e.loop, r));
    }
    assert Honest(e, w.i + 1, accs, []);
  }

  /** One step of a worker that is not done, seen by itself and at one address. */
  lemma StepStores(job: Job, m: Machine, p: nat, a: nat)
    requires Inv(job, m) && p < |m.workers| && m.workers[p].i < job.ends[p]
    ensures
      var m' := Step(job, m, p);
      && WorkerInv(job, m'.workers[p], p) && SameLoads(job.entry.loop, m'.mem, job.entry.mem)
      && (|| (Read(m'.mem, a) == Read(m.mem, a) && StoredBy(job, m'.workers[p], p, a) == StoredBy(job, m.workers[p], p, a))
          || StoredBy(job, m'.workers[p], p, a) == Some(Read(m'.mem, a)))
  {
    hide Honest, SameLoads, Eval, Effect, Latches, Read, Admitted, Tiles, WorkerInv;
    var w, e := m.workers[p], job.entry;
    AdmittedPartitionable(e);
    WorkerHonest(job, w, p);
    if |w.vals| < |e.loop.body| {
      InstrKeepsWorker(job, w, p, m.mem);
      EffectIsStore(e, w.i, w.accs, w.vals, m.mem, a);
    } else {
      LatchKeepsWorker(job, w, p);
    }
  }

  lemma WorkerHonest(job: Job, w: Worker, p: nat)
    requires job.Valid() && p < |job.starts| && WorkerInv(job, w, p)
    ensures Honest(job.entry, w.i, w.accs, w.vals) && |w.vals| <= |job.entry.loop.body| && job.starts[p] <= w.i <= job.ends[p]
  {}

  lemma StepInv(job: Job, m: Machine, p: nat)
    requires Inv(job, m)
    ensures Inv(job, Step(job, m, p))
  {
    if p < |m.workers| && m.workers[p].i < job.ends[p] {
      StepStores(job, m, p, 0);
      StepOthers(job, m, p);
      hide WorkerInv, SameLoads, Read, StoredSince, Step, Tiles, Admitted;
      assert Inv(job, Step(job, m, p));
    }
  }

  lemma StepKeeps(job: Job, m: Machine, p: nat, a: nat)
    requires Inv(job, m) && Explained(job, m, a)
    ensures Inv(job, Step(job, m, p)) && Explained(job, Step(job, m, p), a)
  {
    StepInv(job, m, p);
    if p < |m.workers| && m.workers[p].i < job.ends[p] {
      StepStores(job, m, p, a);
      StepOthers(job, m, p);
      hide WorkerInv, SameLoads, Read, StoredSince, Step, Tiles, Admitted;
      StepExplains(job, m, Step(job, m, p), p, a);
    }
  }

  lemma StepOthers(job: Job, m: Machine, p: nat)
    requires Inv(job, m)
    ensures |Step(job, m, p).workers| == |m.workers|
    ensures forall q {:trigger Step(job, m, p).workers[q]} :: 0 <= q < |m.workers| && q != p ==> Step(job, m, p).workers[q] == m.workers[q]
  {
    hide WorkerInv, SameLoads, Eval, Effect, Latches;
  }

  lemma StepExplains(job: Job, m: Machine, m': Machine, p: nat, a: nat)
    requires Inv(job, m) && Explained(job, m, a) && Inv(job, m') && p < |m.workers| == |m'.workers|
    requires forall q {:trigger m'.workers[q]} :: 0 <= q < |m.workers| && q != p ==> m'.workers[q] == m.workers[q]
    requires || (Read(m'.mem, a) == Read(m.mem, a) && StoredBy(job, m'.workers[p], p, a) == StoredBy(job, m.workers[p], p, a))
             || StoredBy(job, m'.workers[p], p, a) == Some(Read(m'.mem, a))
    ensures Explained(job, m', a)
  {
    hide WorkerInv, SameLoads, Read, StoredSince, Tiles, Admitted;
    if StoredBy(job, m'.workers[p], p, a) != Some(Read(m'.mem, a)) {
      if q :| 0 <= q < |m.workers| && StoredBy(job, m.workers[q], q, a) == Some(Read(m.mem, a)) {
        assert StoredBy(job, m'.workers[q], q, a) == Some(Read(m'.mem, a));
      } else {
        forall q {:trigger m'.workers[q]} | 0 <= q < |m'.workers| ensures StoredBy(job, m'.workers[q], q, a) == None {
          assert StoredBy(job, m.workers[q], q, a) == None;
        }
      }
    }
  }

  lemma SpawnedInv(job: Job, a: nat)
    requires job.Valid()
    ensures Inv(job, Spawned(job)) && Explained(job, Spawned(job), a)
  {
    var m := Spawned(job);
    SameLoadsSelf(job.entry.loop, m.mem);
    forall p {:trigger m.workers[p]} | 0 <= p < |m.workers| ensures WorkerInv(job, m.workers[p], p) && StoredBy(job, m.workers[p], p, a) == None {
      HonestStart(job.entry, job.starts[p], Seeds(job.entry.loop));
    }
  }

  lemma {:induction false} RunKeeps(job: Job, schedule: seq<nat>, a: nat)
    requires job.Valid()
    ensures Inv(job, Run(job, Spawned(job), schedule)) && Explained(job, Run(job, Spawned(job), schedule), a)
  {
    hide Inv, Explained, Step, Spawned, Tiles, Admitted;
    if schedule == [] {
      SpawnedInv(job, a);
    } else {
      RunKeeps(job, schedule[..|schedule| - 1], a);
      StepKeeps(job, Run(job, Spawned(job), schedule[..|schedule| - 1]), schedule[|schedule| - 1], a);
    }
  }

  // ---------------------------------------------------------------- schedules that finish

  lemma {:induction false} RunCompose(job: Job, m: Machine, first: seq<nat>, second: seq<nat>)
    requires job.Valid() && |m.workers| == |job.starts|
    ensures Run(job, m, first + second) == Run(job, Run(job, m, first), second)
  {
    hide Step;
    if second == [] {
      assert first + second == first;
    } else {
      assert (first + second)[..|first + second| - 1] == first + second[..|second| - 1];
      RunCompose(job, m, first, second[..|second| - 1]);
    }
  }

  lemma StepOwns(job: Job, m: Machine, p: nat, a: nat)
    requires Inv(job, m) && p < |m.workers| && Owns(job, m, p, a)
    ensures Inv(job, Step(job, m, p)) && Owns(job, Step(job, m, p), p, a)
  {
    StepInv(job, m, p);
    if m.workers[p].i < job.ends[p] {
      StepStores(job, m, p, a);
      hide WorkerInv, SameLoads, Read, StoredSince, Step, Tiles, Admitted;
    }
  }

  lemma StepsOn(job: Job, m: Machine, p: nat)
    requires Inv(job, m) && p < |m.workers| && m.workers[p].i < job.ends[p]
    ensures
      var w, w' := m.workers[p], Step(job, m, p).workers[p];
      && |w.vals| <= |job.entry.loop.body| && w'.i <= job.ends[p]
      && (w'.i > w.i || (w'.i == w.i && |w'.vals| > |w.vals|))
  {
    WorkerHonest(job, m.workers[p], p);
    StepInv(job, m, p);
    WorkerHonest(job, Step(job, m, p).workers[p], p);
    hide WorkerInv, SameLoads, Eval, Effect, Latches, Tiles, Admitted, Honest;
  }

  /** Worker p alone reaches the end of its slice, keeping memory at its own last stores. */
  lemma {:induction false} Solo(job: Job, m: Machine, p: nat) returns (schedule: seq<nat>)
    requires Inv(job, m) && p < |m.workers|
    ensures
      var m' := Run(job, m, schedule);
      && Inv(job, m') && Done(job, m', p)
      && (forall q {:trigger m'.workers[q]} :: 0 <= q < |m.workers| && q != p ==> m'.workers[q] == m.workers[q])
      && (forall a {:trigger Owns(job, m', p, a)} :: Owns(job, m, p, a) ==> Owns(job, m', p, a))
    decreases job.ends[p] - m.workers[p].i, |job.entry.loop.body| - |m.workers[p].vals|
  {
    hide WorkerInv, SameLoads, Step, Admitted, Owns;
    if m.workers[p].i >= job.ends[p] {
      schedule := [];
      WorkerHonest(job, m.workers[p], p);
      assert Run(job, m, []) == m;
    } else {
      StepInv(job, m, p);
      StepOthers(job, m, p);
      StepsOn(job, m, p);
      var next := Step(job, m, p);
      var rest := Solo(job, next, p);
      schedule := [p] + rest;
      RunCompose(job, m, [p], rest);
      assert Run(job, m, [p]) == next by { assert [p][..0] == []; assert Run(job, m, []) == m; }
      var m' := Run(job, m, schedule);
      forall a {:trigger Owns(job, m', p, a)} | Owns(job, m, p, a) ensures Owns(job, m', p, a) {
        StepOwns(job, m, p, a);
      }
    }
  }

  /** The first k workers, skip left out, one after the other. */
  lemma {:induction false} FinishFirst(job: Job, k: nat, skip: nat) returns (schedule: seq<nat>)
    requires job.Valid() && k <= |job.starts|
    ensures
      var m' := Run(job, Spawned(job), schedule);
      && Inv(job, m')
      && (forall p {:trigger m'.workers[p]} :: 0 <= p < k && p != skip ==> m'.workers[p].i == job.ends[p])
      && (forall p {:trigger m'.workers[p]} :: 0 <= p < |m'.workers| && (p >= k || p == skip) ==> m'.workers[p] == Spawned(job).workers[p])
  {
    hide Inv, Step, Admitted, Spawned;
    if k == 0 {
      schedule := [];
      SpawnedInv(job, 0);
      assert Run(job, Spawned(job), []) == Spawned(job);
    } else {
      schedule := FinishFirst(job, k - 1, skip);
      if k - 1 != skip {
        var m := Run(job, Spawned(job), schedule);
        var rest := Solo(job, m, k - 1);
        RunCompose(job, Spawned(job), schedule, rest);
        schedule := schedule + rest;
      }
    }
  }

  /** Any worker can be the last to store: the others finish first. */
  lemma LastWorkerWins(job: Job, q: nat) returns (schedule: seq<nat>)
    requires job.Valid() && q < |job.starts|
    ensures
      var m := Run(job, Spawned(job), schedule);
      && Inv(job, m) && Finished(job, m) && forall a :: Owns(job, m, q, a)
  {
    hide WorkerInv, SameLoads, Step, Admitted, Owns, Spawned;
    schedule := FinishFirst(job, |job.starts|, q);
    var m := Run(job, Spawned(job), schedule);
    var rest := Solo(job, m, q);
    RunCompose(job, Spawned(job), schedule, rest);
    schedule := schedule + rest;
    var m' := Run(job, Spawned(job), schedule);
    forall a ensures Owns(job, m', q, a) {
      UnstartedOwns(job, m, q, a);
    }
  }

  lemma UnstartedOwns(job: Job, m: Machine, q: nat, a: nat)
    requires Inv(job, m) && q < |m.workers| && m.workers[q] == Spawned(job).workers[q]
    ensures Owns(job, m, q, a)
  {}
}
