/** The adaptive controller as a state machine: what each locked section of the monitor and of the API does. */
module AdaptiveSteps {
  import opened Options

  datatype Phase = WARMUP | MONITORING | SPECIALIZING | VERIFYING | ACTIVE

  /** A registered pipeline; `slot` is the address its dispatch pointer lives at, `future` an unconsumed compile. */
  datatype Entry = Entry(
    name: string, slot: nat, phase: Phase, jitVersions: nat, aotBaselineNS: nat, jitBaselineNS: nat, verifyCount: nat, future: Option<nat>)

  datatype Config = Config(maxVersions: nat, minTriggerNS: nat, verifyCalls: nat)

  datatype Variant = Aot | Jit

  /** One emitted variant switch: the entry's index and the variant it reports as now in effect. */
  datatype Switch = Switch(entry: nat, to: Variant)

  /** Commits that did not come from an inactive state, by the state they landed on, and slots that were not null when last registered. */
  datatype Tally = Tally(onActive: nat, onVerifying: nat, inherited: set<nat>)

  datatype State = State(
    pipelines: seq<Entry>, pointers: map<nat, nat>, specializations: int, deoptimizations: int, activeJit: int, switches: seq<Switch>, tally: Tally)

  type Costs = map<string, nat>

  /** What one monitor pass finds out about an entry: the outcomes of its ratio tests and the state of its compile. */
  datatype Finding = Finding(deviates: bool, notBetter: bool, degraded: bool, handle: nat, ready: Option<nat>)

  function PointerAt(s: State, slot: nat): nat { if slot in s.pointers then s.pointers[slot] else 0 }

  /** No pipelines, zeroed counters; the dispatch pointers keep what they hold. */
  function Blank(pointers: map<nat, nat>): State {
    State([], pointers, 0, 0, 0, [], Tally(0, 0, {}))
  }

  function Register(s: State, name: string, slot: nat): State {
    s.(pipelines := s.pipelines + [Entry(name, slot, WARMUP, 0, 0, 0, 0, None)],
       tally := s.tally.(inherited := if PointerAt(s, slot) != 0 then s.tally.inherited + {slot} else s.tally.inherited - {slot}))
  }

  predicate ShouldRespecialize(cfg: Config, e: Entry, costs: Costs, deviates: bool) {
    && e.name in costs
    && if e.jitVersions == 0 then costs[e.name] > cfg.minTriggerNS else e.aotBaselineNS > 0 && deviates
  }

  /** Ceiling of verify_calls / 10 in 32-bit arithmetic, but at least one. */
  function RequiredCycles(cfg: Config): nat {
    var cycles := (cfg.verifyCalls + 9) % 0x1_0000_0000 / 10;
    if cycles < 1 then 1 else cycles
  }

  function SetEntry(s: State, k: nat, e: Entry): State
    requires k < |s.pipelines|
  {
    s.(pipelines := s.pipelines[k := e])
  }

  /** Publish a compiled version: a new live pipeline unless the caller says it counts already. */
  function Install(s: State, k: nat, ptr: nat, counts: bool): State
    requires k < |s.pipelines|
  {
    s.(pointers := s.pointers[s.pipelines[k].slot := ptr],
       specializations := s.specializations + 1,
       activeJit := s.activeJit + if counts then 1 else 0,
       switches := s.switches + [Switch(k, Jit)])
  }

  function Deoptimize(s: State, k: nat, e: Entry): State
    requires k < |s.pipelines|
  {
    SetEntry(s, k, e.(phase := MONITORING)).(
      pointers := s.pointers[s.pipelines[k].slot := 0],
      deoptimizations := s.deoptimizations + 1,
      activeJit := s.activeJit - 1,
      switches := s.switches + [Switch(k, Aot)])
  }

  /** The monitor's visit to entry k. */
  function Visit(cfg: Config, s: State, k: nat, costs: Costs, f: Finding): State
    requires k < |s.pipelines|
  {
    var e := s.pipelines[k];
    match e.phase
    case WARMUP =>
      if e.name in costs && costs[e.name] > 0 then SetEntry(s, k, e.(aotBaselineNS := costs[e.name], phase := MONITORING)) else s
    case MONITORING =>
      if e.jitVersions < cfg.maxVersions && ShouldRespecialize(cfg, e, costs, f.deviates)
      then SetEntry(s, k, e.(phase := SPECIALIZING, future := Some(f.handle)))
      else s
    case SPECIALIZING =>
      if e.future.None? || f.ready.None? then s
      else if f.ready.value != 0 then
        SetEntry(Install(s, k, f.ready.value, true), k,
                 e.(future := None, jitVersions := e.jitVersions + 1, verifyCount := 0, phase := VERIFYING))
      else SetEntry(s, k, e.(future := None, phase := MONITORING))
    case VERIFYING =>
      if e.name !in costs then s
      else
        var v := e.(jitBaselineNS := costs[e.name], verifyCount := e.verifyCount + 1);
        if v.verifyCount < RequiredCycles(cfg) then SetEntry(s, k, v)
        else if v.aotBaselineNS > 0 && v.jitBaselineNS > 0 && f.notBetter then Deoptimize(s, k, v)
        else SetEntry(s, k, v.(phase := ACTIVE))
    case ACTIVE =>
      if e.name in costs && e.jitBaselineNS > 0 && f.degraded then Deoptimize(s, k, e) else s
  }

  /** A monitor pass over the entries from k on. */
  function Pass(cfg: Config, s: State, k: nat, costs: Costs, findings: nat -> Finding): State
    decreases |s.pipelines| - k
  {
    if k >= |s.pipelines| then s
    else
      var s' := Visit(cfg, s, k, costs, findings(k));
      if |s'.pipelines| == |s.pipelines| then Pass(cfg, s', k + 1, costs, findings) else s'
  }

  /** The first entry with the name, or the number of entries. */
  function Find(s: State, name: string): (k: nat)
    ensures k <= |s.pipelines|
    ensures k < |s.pipelines| ==> s.pipelines[k].name == name
    ensures forall j :: 0 <= j < k ==> s.pipelines[j].name != name
  {
    FindFrom(s.pipelines, name, 0)
  }

  function FindFrom(es: seq<Entry>, name: string, k: nat): (r: nat)
    requires k <= |es|
    ensures k <= r <= |es| && (r < |es| ==> es[r].name == name) && forall j :: k <= j < r ==> es[j].name != name
    decreases |es| - k
  {
    if k == |es| || es[k].name == name then k else FindFrom(es, name, k + 1)
  }

  predicate InFlight(e: Entry) { e.phase.SPECIALIZING? && e.future.Some? }

  /** Both locked sections of a forced specialization start with the same test: registered, within budget, no compile of the monitor's own. */
  predicate MayForce(cfg: Config, s: State, name: string) {
    var k := Find(s, name);
    k < |s.pipelines| && s.pipelines[k].jitVersions < cfg.maxVersions && !InFlight(s.pipelines[k])
  }

  /** The second locked section: resolve again, test again, publish. */
  function Force(cfg: Config, s: State, name: string, ptr: nat): State {
    if !MayForce(cfg, s, name) || ptr == 0 then s
    else
      var k := Find(s, name);
      var e := s.pipelines[k];
      var s' := SetEntry(Install(s, k, ptr, !e.phase.ACTIVE?), k, e.(jitVersions := e.jitVersions + 1, phase := ACTIVE));
      s'.(tally := s.tally.(onActive := s.tally.onActive + (if e.phase.ACTIVE? then 1 else 0),
                            onVerifying := s.tally.onVerifying + (if e.phase.VERIFYING? then 1 else 0)))
  }
}
