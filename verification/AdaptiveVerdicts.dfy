/** What the monitor decides over a whole run, from the samples it read and the findings it made alone. */
module AdaptiveVerdicts {
  import opened Options
  import opened AdaptiveSteps
  import opened AdaptiveLaws

  /**
    * What a run says of an entry: its first positive sample, unless a forced commit came before it; the passes that sampled it since
    * the monitor last installed a version, and the sample the last of them read before the version was accepted; and whether a forced
    * commit came since that install, or ever.
    */
  datatype Life = Life(first: nat, since: nat, last: nat, forced: bool, everForced: bool)

  const NEWBORN := Life(0, 0, 0, false, false)

  /** A version was installed for entry k between the two states. */
  predicate Installed(s: State, s': State, k: nat) { SwitchesTo(s'.switches, k, Jit) > SwitchesTo(s.switches, k, Jit) }

  /** And a version was withdrawn. */
  predicate Withdrawn(s: State, s': State, k: nat) { SwitchesTo(s'.switches, k, Aot) > SwitchesTo(s.switches, k, Aot) }

  function Lived(l: Life, name: string, ev: Event, verifying: bool, installed: bool): Life {
    match ev
    case Monitored(costs, _) =>
      var first := if l.first == 0 && !l.everForced && name in costs then costs[name] else l.first;
      if installed then Life(first, 0, l.last, false, l.everForced)
      else if name in costs then Life(first, l.since + 1, if verifying then costs[name] else l.last, l.forced, l.everForced)
      else l
    case Forced(_, _) => if installed then l.(forced := true, everForced := true) else l
    case _ => l
  }

  function LifeOf(cfg: Config, pointers: map<nat, nat>, events: seq<Event>, k: nat): Life {
    if events == [] then NEWBORN
    else
      var s, s' := Run(cfg, Blank(pointers), events[..|events| - 1]), Run(cfg, Blank(pointers), events);
      if k >= |s.pipelines| || k >= |s'.pipelines| then NEWBORN
      else Lived(LifeOf(cfg, pointers, events[..|events| - 1], k), s.pipelines[k].name, events[|events| - 1],
                 s.pipelines[k].phase.VERIFYING?, Installed(s, s', k))
  }

  /** Passes enough for a verdict: at least one, and one for every ten calls configured. */
  predicate Enough(cfg: Config, passes: nat) { passes >= 1 && 10 * passes >= cfg.verifyCalls }

  const U32: nat := 0x1_0000_0000

  /** The code counts as many, unless rounding up the configured calls wraps. */
  lemma RequiredExactly(cfg: Config)
    requires cfg.verifyCalls < U32
    ensures (forall passes: nat :: passes >= RequiredCycles(cfg) <==> Enough(cfg, passes)) <==> cfg.verifyCalls + 9 < U32
  {
    if cfg.verifyCalls + 9 >= U32 {
      assert RequiredCycles(cfg) == 1;
      assert !Enough(cfg, 1) && 1 >= RequiredCycles(cfg);
    }
  }

  // ---------------------------------------------------------------- one pass, entry by entry

  /** What a pass does to entry k is what its visit does. */
  lemma VisitOthers(cfg: Config, s: State, j: nat, costs: Costs, f: Finding, k: nat)
    requires j < |s.pipelines| && k < |s.pipelines| && j != k
    ensures
      var s' := Visit(cfg, s, j, costs, f);
      && |s'.pipelines| == |s.pipelines| && s'.pipelines[k] == s.pipelines[k]
      && (Installed(s, s', k) <==> false) && (Withdrawn(s, s', k) <==> false)
      && SwitchesTo(s'.switches, k, Jit) == SwitchesTo(s.switches, k, Jit) && SwitchesTo(s'.switches, k, Aot) == SwitchesTo(s.switches, k, Aot)
  {
    VisitLog(cfg, s, j, costs, f);
    LogAppend(s.switches, j, Jit, k, Jit);
    LogAppend(s.switches, j, Jit, k, Aot);
    LogAppend(s.switches, j, Aot, k, Jit);
    LogAppend(s.switches, j, Aot, k, Aot);
    hide SwitchesTo, Visit;
  }

  /** A visit changes its own entry alone and switches at most once. */
  lemma VisitLog(cfg: Config, s: State, j: nat, costs: Costs, f: Finding)
    requires j < |s.pipelines|
    ensures
      var s' := Visit(cfg, s, j, costs, f);
      && |s'.pipelines| == |s.pipelines| && s'.pipelines == s.pipelines[j := s'.pipelines[j]]
      && (s'.switches == s.switches || s'.switches == s.switches + [Switch(j, Jit)] || s'.switches == s.switches + [Switch(j, Aot)])
  {
    hide ShouldRespecialize, RequiredCycles;
  }

  /** The entry after a pass over the entries from j on, and whether it switched. */
  ghost predicate PassedLike(s: State, s': State, v: State, k: nat) {
    && k < |s.pipelines| == |s'.pipelines| == |v.pipelines| && s'.pipelines[k] == v.pipelines[k]
    && (Installed(s, s', k) <==> Installed(s, v, k)) && (Withdrawn(s, s', k) <==> Withdrawn(s, v, k))
  }

  lemma {:induction false} PassAfter(cfg: Config, s: State, j: nat, costs: Costs, findings: nat -> Finding, k: nat)
    requires k < j && k < |s.pipelines|
    ensures
      var s' := Pass(cfg, s, j, costs, findings);
      && |s'.pipelines| == |s.pipelines| && s'.pipelines[k] == s.pipelines[k]
      && SwitchesTo(s'.switches, k, Jit) == SwitchesTo(s.switches, k, Jit) && SwitchesTo(s'.switches, k, Aot) == SwitchesTo(s.switches, k, Aot)
    decreases |s.pipelines| - j
  {
    hide Visit, SwitchesTo;
    if j < |s.pipelines| {
      VisitOthers(cfg, s, j, costs, findings(j), k);
      PassAfter(cfg, Visit(cfg, s, j, costs, findings(j)), j + 1, costs, findings, k);
    }
  }

  /** Visits depend on the entry alone, and add to the log alone. */
  lemma VisitSame(cfg: Config, s: State, t: State, costs: Costs, f: Finding, k: nat)
    requires k < |s.pipelines| == |t.pipelines| && s.pipelines[k] == t.pipelines[k]
    requires SwitchesTo(t.switches, k, Jit) == SwitchesTo(s.switches, k, Jit) && SwitchesTo(t.switches, k, Aot) == SwitchesTo(s.switches, k, Aot)
    ensures PassedLike(s, Visit(cfg, t, k, costs, f), Visit(cfg, s, k, costs, f), k)
  {
    LogAppend(s.switches, k, Jit, k, Jit);
    LogAppend(s.switches, k, Jit, k, Aot);
    LogAppend(s.switches, k, Aot, k, Jit);
    LogAppend(s.switches, k, Aot, k, Aot);
    LogAppend(t.switches, k, Jit, k, Jit);
    LogAppend(t.switches, k, Jit, k, Aot);
    LogAppend(t.switches, k, Aot, k, Jit);
    LogAppend(t.switches, k, Aot, k, Aot);
    hide SwitchesTo, ShouldRespecialize, RequiredCycles;
  }

  lemma {:induction false} PassIsVisit(cfg: Config, s: State, t: State, j: nat, costs: Costs, findings: nat -> Finding, k: nat)
    requires j <= k < |s.pipelines| == |t.pipelines| && s.pipelines[k] == t.pipelines[k]
    requires SwitchesTo(t.switches, k, Jit) == SwitchesTo(s.switches, k, Jit) && SwitchesTo(t.switches, k, Aot) == SwitchesTo(s.switches, k, Aot)
    ensures PassedLike(s, Pass(cfg, t, j, costs, findings), Visit(cfg, s, k, costs, findings(k)), k)
    decreases k - j
  {
    hide Visit, SwitchesTo;
    var t' := Visit(cfg, t, j, costs, findings(j));
    if j < k {
      VisitOthers(cfg, t, j, costs, findings(j), k);
      PassIsVisit(cfg, s, t', j + 1, costs, findings, k);
    } else {
      VisitSame(cfg, s, t, costs, findings(k), k);
      PassAfter(cfg, t', k + 1, costs, findings, k);
    }
  }

  // ---------------------------------------------------------------- what the record keeps of the run

  /** The numbers an entry keeps are those of its life. */
  predicate Remembers(cfg: Config, e: Entry, l: Life) {
    && e.aotBaselineNS == l.first && e.jitBaselineNS == l.last
    && (e.phase.WARMUP? <==> l.first == 0 && !l.everForced)
    && (e.phase.VERIFYING? ==> !l.forced && e.verifyCount == l.since && l.since < RequiredCycles(cfg))
    && (e.phase.ACTIVE? && !l.forced ==> l.since >= RequiredCycles(cfg))
  }

  lemma VisitRemembers(cfg: Config, s: State, k: nat, costs: Costs, findings: nat -> Finding, l: Life)
    requires k < |s.pipelines| && Remembers(cfg, s.pipelines[k], l) && RequiredCycles(cfg) >= 1
    ensures
      var v := Visit(cfg, s, k, costs, findings(k));
      Remembers(cfg, v.pipelines[k], Lived(l, s.pipelines[k].name, Monitored(costs, findings), s.pipelines[k].phase.VERIFYING?, Installed(s, v, k)))
  {
    LogAppend(s.switches, k, Jit, k, Jit);
    LogAppend(s.switches, k, Aot, k, Jit);
    hide SwitchesTo, ShouldRespecialize, RequiredCycles;
  }

  lemma ForceRemembers(cfg: Config, s: State, k: nat, name: string, ptr: nat, l: Life)
    requires k < |s.pipelines| && Remembers(cfg, s.pipelines[k], l)
    ensures
      var s' := Force(cfg, s, name, ptr);
      && |s'.pipelines| == |s.pipelines|
      && Remembers(cfg, s'.pipelines[k], Lived(l, s.pipelines[k].name, Forced(name, ptr), s.pipelines[k].phase.VERIFYING?, Installed(s, s', k)))
  {
    var j := Find(s, name);
    LogAppend(s.switches, j, Jit, k, Jit);
    hide SwitchesTo, RequiredCycles, Find;
  }

  lemma RequiredPositive(cfg: Config)
    ensures RequiredCycles(cfg) >= 1
  {}

  /** Over every run each entry remembers its life. */
  lemma {:induction false} RunRemembers(cfg: Config, pointers: map<nat, nat>, events: seq<Event>, k: nat)
    requires k < |Run(cfg, Blank(pointers), events).pipelines|
    ensures Remembers(cfg, Run(cfg, Blank(pointers), events).pipelines[k], LifeOf(cfg, pointers, events, k))
  {
    hide Remembers, Visit, Installed, Lived, Force, Pass;
    RequiredPositive(cfg);
    var init, ev := events[..|events| - 1], events[|events| - 1];
    var s := Run(cfg, Blank(pointers), init);
    if k < |s.pipelines| {
      RunRemembers(cfg, pointers, init, k);
      var l := LifeOf(cfg, pointers, init, k);
      match ev
      case Monitored(costs, findings) =>
        PassIsVisit(cfg, s, s, 0, costs, findings, k);
        VisitRemembers(cfg, s, k, costs, findings, l);
      case Forced(name, ptr) => ForceRemembers(cfg, s, k, name, ptr, l);
      case Registered(_, _) => OthersRemember(cfg, s, ev, k, l);
    } else {
      OnlyRegistered(cfg, s, ev, k);
      NewbornRemembers(cfg, ev.name, ev.slot);
    }
  }

  lemma OthersRemember(cfg: Config, s: State, ev: Event, k: nat, l: Life)
    requires k < |s.pipelines| && ev.Registered? && Remembers(cfg, s.pipelines[k], l)
    ensures Lived(l, s.pipelines[k].name, ev, s.pipelines[k].phase.VERIFYING?, Installed(s, After(cfg, s, ev), k)) == l
    ensures After(cfg, s, ev).pipelines[k] == s.pipelines[k]
  {}

  lemma {:induction false} PassLength(cfg: Config, s: State, j: nat, costs: Costs, findings: nat -> Finding)
    ensures |Pass(cfg, s, j, costs, findings).pipelines| == |s.pipelines|
    decreases |s.pipelines| - j
  {
    if j < |s.pipelines| { PassLength(cfg, Visit(cfg, s, j, costs, findings(j)), j + 1, costs, findings); }
  }

  /** Only a registration makes entries. */
  lemma OnlyRegistered(cfg: Config, s: State, ev: Event, k: nat)
    requires |s.pipelines| <= k < |After(cfg, s, ev).pipelines|
    ensures ev.Registered? && After(cfg, s, ev).pipelines[k] == Entry(ev.name, ev.slot, WARMUP, 0, 0, 0, 0, None)
  {
    hide Pass;
    match ev
    case Monitored(costs, findings) => PassLength(cfg, s, 0, costs, findings);
    case _ =>
  }

  lemma NewbornRemembers(cfg: Config, name: string, slot: nat)
    ensures Remembers(cfg, Entry(name, slot, WARMUP, 0, 0, 0, 0, None), NEWBORN)
  {}

  // ---------------------------------------------------------------- the verdicts

  /** The comparison of the pass says the version is not better, and there are two costs to compare. */
  predicate Rejects(l: Life, cost: nat, f: Finding) { f.notBetter && l.first > 0 && cost > 0 }

  /**
    * In every run, and for every entry, a monitor pass
    *  - withdraws a version exactly if it sampled the entry and either ends a verification that rejects, or finds an accepted
    *    version degraded against a positive cost on record;
    *  - accepts a version exactly if it ends a verification that does not reject;
    *  - starts a compile exactly if it sampled the entry, which is monitored and within budget, and the cost is above the
    *    trigger for a first version, or deviates from the cost on record for another;
    *  - installs a version exactly if the compile it started gave one.
    * A verification ends with the first pass that makes enough of them since the install.
    */
  lemma VerdictsExact(cfg: Config, pointers: map<nat, nat>, events: seq<Event>, costs: Costs, findings: nat -> Finding, k: nat)
    requires cfg.verifyCalls + 9 < U32 && k < |Run(cfg, Blank(pointers), events).pipelines|
    ensures
      var s := Run(cfg, Blank(pointers), events);
      var s' := After(cfg, s, Monitored(costs, findings));
      var e, l, f := s.pipelines[k], LifeOf(cfg, pointers, events, k), findings(k);
      var sampled, cost := e.name in costs, if e.name in costs then costs[e.name] else 0;
      var ends := e.phase.VERIFYING? && sampled && Enough(cfg, l.since + 1);
      && |s'.pipelines| == |s.pipelines|
      && var e' := s'.pipelines[k];
      && (Withdrawn(s, s', k) <==> (ends && Rejects(l, cost, f)) || (e.phase.ACTIVE? && sampled && f.degraded && l.last > 0))
      && (e'.phase.ACTIVE? && !e.phase.ACTIVE? <==> ends && !Rejects(l, cost, f))
      && (e'.phase.SPECIALIZING? && !e.phase.SPECIALIZING? <==>
            && e.phase.MONITORING? && sampled && e.jitVersions < cfg.maxVersions
            && if e.jitVersions == 0 then cost > cfg.minTriggerNS else l.first > 0 && f.deviates)
      && (Installed(s, s', k) <==> e.phase.SPECIALIZING? && e.future.Some? && f.ready.Some? && f.ready.value != 0)
      && (e'.phase.MONITORING? && !e.phase.MONITORING? <==>
            || Withdrawn(s, s', k) || (e.phase.WARMUP? && cost > 0)
            || (e.phase.SPECIALIZING? && e.future.Some? && f.ready == Some(0)))
  {
    var s := Run(cfg, Blank(pointers), events);
    hide Run, LifeOf;
    RunRemembers(cfg, pointers, events, k);
    PassIsVisit(cfg, s, s, 0, costs, findings, k);
    EnoughMeans(cfg, LifeOf(cfg, pointers, events, k).since + 1);
    VisitVerdicts(cfg, s, k, costs, findings(k), LifeOf(cfg, pointers, events, k));
  }

  lemma EnoughMeans(cfg: Config, passes: nat)
    requires cfg.verifyCalls + 9 < U32
    ensures passes >= RequiredCycles(cfg) <==> Enough(cfg, passes)
  {}

  lemma VisitVerdicts(cfg: Config, s: State, k: nat, costs: Costs, f: Finding, l: Life)
    requires k < |s.pipelines| && Remembers(cfg, s.pipelines[k], l) && (l.since + 1 >= RequiredCycles(cfg) <==> Enough(cfg, l.since + 1))
    ensures
      var v := Visit(cfg, s, k, costs, f);
      var e, e' := s.pipelines[k], v.pipelines[k];
      var sampled, cost := e.name in costs, if e.name in costs then costs[e.name] else 0;
      var ends := e.phase.VERIFYING? && sampled && Enough(cfg, l.since + 1);
      && (Withdrawn(s, v, k) <==> (ends && Rejects(l, cost, f)) || (e.phase.ACTIVE? && sampled && f.degraded && l.last > 0))
      && (e'.phase.ACTIVE? && !e.phase.ACTIVE? <==> ends && !Rejects(l, cost, f))
      && (e'.phase.SPECIALIZING? && !e.phase.SPECIALIZING? <==>
            && e.phase.MONITORING? && sampled && e.jitVersions < cfg.maxVersions
            && if e.jitVersions == 0 then cost > cfg.minTriggerNS else l.first > 0 && f.deviates)
      && (Installed(s, v, k) <==> e.phase.SPECIALIZING? && e.future.Some? && f.ready.Some? && f.ready.value != 0)
      && (e'.phase.MONITORING? && !e.phase.MONITORING? <==>
            || Withdrawn(s, v, k) || (e.phase.WARMUP? && cost > 0)
            || (e.phase.SPECIALIZING? && e.future.Some? && f.ready == Some(0)))
  {
    LogAppend(s.switches, k, Jit, k, Jit);
    LogAppend(s.switches, k, Jit, k, Aot);
    LogAppend(s.switches, k, Aot, k, Jit);
    LogAppend(s.switches, k, Aot, k, Aot);
    hide SwitchesTo, RequiredCycles, Enough;
  }

  // ---------------------------------------------------------------- the pointers a pass publishes

  lemma VisitPointer(cfg: Config, s: State, j: nat, costs: Costs, f: Finding, k: nat)
    requires SlotsApart(s.pipelines) && j < |s.pipelines| && k < |s.pipelines|
    ensures
      var s' := Visit(cfg, s, j, costs, f);
      && |s'.pipelines| == |s.pipelines| && SlotsApart(s'.pipelines) && s'.pipelines[k].slot == s.pipelines[k].slot
      && (j != k ==> s'.pipelines[k] == s.pipelines[k] && PointerAt(s', s.pipelines[k].slot) == PointerAt(s, s.pipelines[k].slot))
  {
    hide ShouldRespecialize, RequiredCycles;
    assert forall i :: 0 <= i < |s.pipelines| ==> Visit(cfg, s, j, costs, f).pipelines[i].slot == s.pipelines[i].slot;
  }

  /** What a pass leaves behind an entry's pointer: the version installed, null after a withdrawal, and else what was there. */
  function Published(e: Entry, e': Entry, before: nat, f: Finding): nat {
    if e.phase.SPECIALIZING? && e'.phase.VERIFYING? then (if f.ready.Some? then f.ready.value else 0)
    else if (e.phase.VERIFYING? || e.phase.ACTIVE?) && e'.phase.MONITORING? then 0
    else before
  }

  lemma VisitPublishes(cfg: Config, s: State, k: nat, costs: Costs, f: Finding)
    requires k < |s.pipelines|
    ensures
      var s' := Visit(cfg, s, k, costs, f);
      |s'.pipelines| == |s.pipelines| &&
      PointerAt(s', s.pipelines[k].slot) == Published(s.pipelines[k], s'.pipelines[k], PointerAt(s, s.pipelines[k].slot), f)
  {
    hide ShouldRespecialize, RequiredCycles;
  }

  lemma {:induction false} PassPublishes(cfg: Config, s: State, j: nat, costs: Costs, findings: nat -> Finding, k: nat)
    requires SlotsApart(s.pipelines) && k < |s.pipelines|
    ensures
      var s' := Pass(cfg, s, j, costs, findings);
      && |s'.pipelines| == |s.pipelines|
      && PointerAt(s', s.pipelines[k].slot) ==
           if j <= k then Published(s.pipelines[k], s'.pipelines[k], PointerAt(s, s.pipelines[k].slot), findings(k))
           else PointerAt(s, s.pipelines[k].slot)
    decreases |s.pipelines| - j
  {
    hide Visit, SlotsApart, Published, PointerAt;
    if j < |s.pipelines| {
      var t := Visit(cfg, s, j, costs, findings(j));
      VisitPointer(cfg, s, j, costs, findings(j), k);
      PassPublishes(cfg, t, j + 1, costs, findings, k);
      if j == k {
        VisitPublishes(cfg, s, k, costs, findings(k));
        PassAfter(cfg, t, k + 1, costs, findings, k);
      }
    } else {
      PassLength(cfg, s, j, costs, findings);
    }
  }

  /** In every run in which pipelines have pointers of their own a pass publishes exactly what its verdicts say. */
  lemma PassPublishesVerdicts(cfg: Config, pointers: map<nat, nat>, events: seq<Event>, costs: Costs, findings: nat -> Finding, k: nat)
    requires OwnSlotRun(cfg, Blank(pointers), events) && k < |Run(cfg, Blank(pointers), events).pipelines|
    ensures
      var s := Run(cfg, Blank(pointers), events);
      var s' := After(cfg, s, Monitored(costs, findings));
      && |s'.pipelines| == |s.pipelines|
      && PointerAt(s', s.pipelines[k].slot) == Published(s.pipelines[k], s'.pipelines[k], PointerAt(s, s.pipelines[k].slot), findings(k))
  {
    RunKeeps(cfg, pointers, events);
    PassPublishes(cfg, Run(cfg, Blank(pointers), events), 0, costs, findings, k);
  }

  /** An accepted version was verified by enough passes since its install, unless a forced commit put it there. */
  lemma AcceptedAfterEnough(cfg: Config, pointers: map<nat, nat>, events: seq<Event>, k: nat)
    requires cfg.verifyCalls + 9 < U32 && k < |Run(cfg, Blank(pointers), events).pipelines|
    ensures
      var e, l := Run(cfg, Blank(pointers), events).pipelines[k], LifeOf(cfg, pointers, events, k);
      e.phase.ACTIVE? ==> l.forced || Enough(cfg, l.since)
  {
    RunRemembers(cfg, pointers, events, k);
    EnoughMeans(cfg, LifeOf(cfg, pointers, events, k).since);
  }

  /** The entry a forced specialization is for: the first of the name, within budget, with no compile in flight. */
  predicate Forcible(cfg: Config, s: State, name: string, k: nat) {
    && k < |s.pipelines| && s.pipelines[k].name == name && (forall j :: 0 <= j < k ==> s.pipelines[j].name != name)
    && s.pipelines[k].jitVersions < cfg.maxVersions && !(s.pipelines[k].phase.SPECIALIZING? && s.pipelines[k].future.Some?)
  }

  /** A forced commit of a version lands on that entry and makes it active with that version; otherwise nothing changes. */
  lemma ForcedLands(cfg: Config, s: State, name: string, ptr: nat, k: nat)
    ensures ptr == 0 || (forall j :: !Forcible(cfg, s, name, j)) ==> After(cfg, s, Forced(name, ptr)) == s
    ensures ptr != 0 && Forcible(cfg, s, name, k) ==>
              var s' := After(cfg, s, Forced(name, ptr));
              && |s'.pipelines| == |s.pipelines| && (forall j :: 0 <= j < |s.pipelines| && j != k ==> s'.pipelines[j] == s.pipelines[j])
              && s'.pipelines[k] == s.pipelines[k].(phase := ACTIVE, jitVersions := s.pipelines[k].jitVersions + 1)
              && PointerAt(s', s.pipelines[k].slot) == ptr && Installed(s, s', k)
              && s'.activeJit == s.activeJit + (if s.pipelines[k].phase.ACTIVE? then 0 else 1)
  {
    var j := Find(s, name);
    LogAppend(s.switches, j, Jit, k, Jit);
    hide SwitchesTo;
    if MayForce(cfg, s, name) { assert Forcible(cfg, s, name, j); }
  }
}
