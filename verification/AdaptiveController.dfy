/** The controller's globals and the sections of code that run under its lock, each against its step. */
module AdaptiveController {
  import opened Options
  import opened AdaptiveSteps

  const U32: nat := 0x1_0000_0000

  class Controller {
    const cfg: Config
    var pipelines: seq<Entry>
    var pointers: map<nat, nat>
    var specializations: nat
    var deoptimizations: nat
    var activeJit: nat
    var switches: seq<Switch>
    ghost var st: State

    /** The 32-bit counters are the state's counts modulo their width. */
    ghost predicate Valid()
      reads this
    {
      && pipelines == st.pipelines && pointers == st.pointers && switches == st.switches
      && specializations == st.specializations % U32
      && deoptimizations == st.deoptimizations % U32
      && activeJit == st.activeJit % U32
    }

    constructor (cfg: Config, pointers: map<nat, nat>)
      ensures Valid() && this.cfg == cfg && st == Blank(pointers)
    {
      this.cfg := cfg;
      this.pipelines, this.pointers, this.switches := [], pointers, [];
      this.specializations, this.deoptimizations, this.activeJit := 0, 0, 0;
      this.st := Blank(pointers);
    }

    method Register(name: string, slot: nat)
      requires Valid()
      modifies this
      ensures Valid() && st == AdaptiveSteps.Register(old(st), name, slot)
    {
      pipelines := pipelines + [Entry(name, slot, WARMUP, 0, 0, 0, 0, None)];
      st := AdaptiveSteps.Register(st, name, slot);
    }

    /** The stores and counter updates that publish a compiled version of entry k. */
    method Publish(k: nat, ptr: nat, counts: bool)
      requires Valid() && k < |pipelines|
      modifies this
      ensures Valid() && st == Install(old(st), k, ptr, counts)
    {
      pointers := pointers[pipelines[k].slot := ptr];
      specializations := (specializations + 1) % U32;
      if counts { activeJit := (activeJit + 1) % U32; }
      switches := switches + [Switch(k, Jit)];
      st := Install(st, k, ptr, counts);
    }

    method Withdraw(k: nat)
      requires Valid() && k < |pipelines|
      modifies this
      ensures Valid() && st == Deoptimize(old(st), k, old(pipelines[k]))
    {
      pointers := pointers[pipelines[k].slot := 0];
      deoptimizations := (deoptimizations + 1) % U32;
      activeJit := (activeJit + (U32 - 1)) % U32;
      switches := switches + [Switch(k, Aot)];
      pipelines := pipelines[k := pipelines[k].(phase := MONITORING)];
      st := Deoptimize(st, k, st.pipelines[k]);
    }

    /** One case of the monitor's switch. */
    method VisitEntry(k: nat, costs: Costs, f: Finding)
      requires Valid() && k < |pipelines|
      modifies this
      ensures Valid() && st == Visit(cfg, old(st), k, costs, f)
    {
      var e := pipelines[k];
      ghost var before := st;
      match e.phase {
        case WARMUP =>
          if e.name in costs && costs[e.name] > 0 {
            Assign(k, e.(aotBaselineNS := costs[e.name], phase := MONITORING));
          }
        case MONITORING =>
          if e.jitVersions >= cfg.maxVersions { return; }
          if ShouldRespecialize(cfg, e, costs, f.deviates) {
            Assign(k, e.(phase := SPECIALIZING, future := Some(f.handle)));
          }
        case SPECIALIZING =>
          if e.future.Some? && f.ready.Some? {
            var ptr := f.ready.value;
            if ptr != 0 {
              Publish(k, ptr, true);
              Assign(k, e.(future := None, jitVersions := e.jitVersions + 1, verifyCount := 0, phase := VERIFYING));
            } else {
              Assign(k, e.(future := None, phase := MONITORING));
            }
          }
        case VERIFYING =>
          if e.name !in costs { return; }
          var v := e.(jitBaselineNS := costs[e.name], verifyCount := e.verifyCount + 1);
          Assign(k, v);
          if v.verifyCount < RequiredCycles(cfg) { return; }
          if v.aotBaselineNS > 0 && v.jitBaselineNS > 0 {
            if f.notBetter {
              Withdraw(k);
            } else {
              Assign(k, v.(phase := ACTIVE));
            }
          } else {
            Assign(k, v.(phase := ACTIVE));
          }
        case ACTIVE =>
          if e.name in costs && e.jitBaselineNS > 0 && f.degraded { Withdraw(k); }
      }
      Rewritten(before, k);
    }

    /** Overwriting an entry twice is overwriting it once. */
    static lemma Rewritten(s: State, k: nat)
      requires k < |s.pipelines|
      ensures SetEntry(s, k, s.pipelines[k]) == s
      ensures forall a: Entry, b: Entry {:trigger SetEntry(SetEntry(s, k, a), k, b)} :: SetEntry(SetEntry(s, k, a), k, b) == SetEntry(s, k, b)
      ensures forall a: Entry, b: Entry {:trigger Deoptimize(SetEntry(s, k, a), k, b)} :: a.slot == s.pipelines[k].slot ==>
                Deoptimize(SetEntry(s, k, a), k, b) == Deoptimize(s, k, b)
    {}

    method Assign(k: nat, e: Entry)
      requires Valid() && k < |pipelines|
      modifies this
      ensures Valid() && st == SetEntry(old(st), k, e)
    {
      pipelines := pipelines[k := e];
      st := SetEntry(st, k, e);
    }

    /** One round of the monitor loop, with the cost samples it read before taking the lock. */
    method MonitorPass(costs: Costs, findings: nat -> Finding)
      requires Valid()
      modifies this
      ensures Valid() && st == Pass(cfg, old(st), 0, costs, findings)
    {
      var k := 0;
      while k < |pipelines|
        invariant Valid() && 0 <= k <= |pipelines| == |old(pipelines)|
        invariant Pass(cfg, st, k, costs, findings) == Pass(cfg, old(st), 0, costs, findings)
      {
        VisitKeepsEntries(cfg, st, k, costs, findings(k));
        VisitEntry(k, costs, findings(k));
        k := k + 1;
      }
    }

    static lemma VisitKeepsEntries(cfg: Config, s: State, k: nat, costs: Costs, f: Finding)
      requires k < |s.pipelines|
      ensures |Visit(cfg, s, k, costs, f).pipelines| == |s.pipelines|
    {}

    method FindPipeline(name: string) returns (k: nat)
      requires Valid()
      ensures k == Find(st, name)
    {
      k := 0;
      while k < |pipelines|
        invariant 0 <= k <= |pipelines|
        invariant forall j :: 0 <= j < k ==> pipelines[j].name != name
      {
        if pipelines[k].name == name { return; }
        k := k + 1;
      }
    }

    /** The section before the compile: whether there is anything to compile. */
    method ForceBegin(name: string) returns (compile: bool)
      requires Valid()
      ensures compile == MayForce(cfg, st, name)
    {
      var k := FindPipeline(name);
      if k == |pipelines| { return false; }
      if pipelines[k].jitVersions >= cfg.maxVersions { return false; }
      return !InFlight(pipelines[k]);
    }

    /** The section after it, with the compiled pointer or null. */
    method ForceFinish(name: string, ptr: nat)
      requires Valid()
      modifies this
      ensures Valid() && st == Force(cfg, old(st), name, ptr)
    {
      var k := FindPipeline(name);
      if k == |pipelines| || pipelines[k].jitVersions >= cfg.maxVersions { return; }
      if InFlight(pipelines[k]) { return; }
      if ptr == 0 { return; }
      var e := pipelines[k];
      var wasActive := e.phase.ACTIVE?;
      Publish(k, ptr, !wasActive);
      Assign(k, e.(jitVersions := e.jitVersions + 1, phase := ACTIVE));
      st := st.(tally := st.tally.(onActive := st.tally.onActive + (if wasActive then 1 else 0),
                                   onVerifying := st.tally.onVerifying + (if e.phase.VERIFYING? then 1 else 0)));
    }

    /** Entries and counters go; dispatch pointers are not touched. */
    method Shutdown()
      requires Valid()
      modifies this
      ensures Valid() && st == Blank(old(st).pointers)
    {
      pipelines, switches := [], [];
      specializations, deoptimizations, activeJit := 0, 0, 0;
      st := Blank(st.pointers);
    }
  }
}
