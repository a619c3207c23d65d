/** What holds over every run of the adaptive controller: pointers, futures, budgets and counters. */
module AdaptiveLaws {
  import opened Options
  import opened AdaptiveSteps

  /**
    * One locked section. A forced specialization is its second section, with the pointer its compile gave:
    * its first changes nothing, and any sections of others may lie between the two.
    */
  datatype Event =
    | Registered(name: string, slot: nat)
    | Monitored(costs: Costs, findings: nat -> Finding)
    | Forced(name: string, ptr: nat)
    | Stopped

  function After(cfg: Config, s: State, ev: Event): State {
    match ev
    case Registered(name, slot) => Register(s, name, slot)
    case Monitored(costs, findings) => Pass(cfg, s, 0, costs, findings)
    case Forced(name, ptr) => Force(cfg, s, name, ptr)
    case Stopped => Blank(s.pointers)
  }

  /** A pipeline is registered with a dispatch pointer no other registered pipeline has. */
  predicate OwnSlot(s: State, ev: Event) {
    ev.Registered? ==> forall k :: 0 <= k < |s.pipelines| ==> s.pipelines[k].slot != ev.slot
  }

  /** And that pointer is still null. */
  predicate Legal(s: State, ev: Event) {
    OwnSlot(s, ev) && (ev.Registered? ==> PointerAt(s, ev.slot) == 0)
  }

  function Run(cfg: Config, s: State, events: seq<Event>): State {
    if events == [] then s else After(cfg, Run(cfg, s, events[..|events| - 1]), events[|events| - 1])
  }

  predicate LegalRun(cfg: Config, s: State, events: seq<Event>) {
    events != [] ==>
      && LegalRun(cfg, s, events[..|events| - 1])
      && Legal(Run(cfg, s, events[..|events| - 1]), events[|events| - 1])
  }

  predicate OwnSlotRun(cfg: Config, s: State, events: seq<Event>) {
    events != [] ==>
      && OwnSlotRun(cfg, s, events[..|events| - 1])
      && OwnSlot(Run(cfg, s, events[..|events| - 1]), events[|events| - 1])
  }

  // ---------------------------------------------------------------- counting

  predicate Dispatched(e: Entry) { e.phase.VERIFYING? || e.phase.ACTIVE? }

  function Live(e: Entry): nat { if Dispatched(e) then 1 else 0 }

  function SumVersions(es: seq<Entry>): nat {
    if es == [] then 0 else SumVersions(es[..|es| - 1]) + es[|es| - 1].jitVersions
  }

  function LiveCount(es: seq<Entry>): nat {
    if es == [] then 0 else LiveCount(es[..|es| - 1]) + Live(es[|es| - 1])
  }

  function SwitchesTo(log: seq<Switch>, k: nat, v: Variant): nat {
    if log == [] then 0 else SwitchesTo(log[..|log| - 1], k, v) + if log[|log| - 1] == Switch(k, v) then 1 else 0
  }

  /** The variant entry k last switched to; it starts out ahead-of-time compiled. */
  function LastVariant(log: seq<Switch>, k: nat): Variant {
    if log == [] then Aot else if log[|log| - 1].entry == k then log[|log| - 1].to else LastVariant(log[..|log| - 1], k)
  }

  lemma {:induction false} SumsUpdate(es: seq<Entry>, k: nat, e: Entry)
    requires k < |es|
    ensures SumVersions(es[k := e]) == SumVersions(es) - es[k].jitVersions + e.jitVersions
    ensures LiveCount(es[k := e]) == LiveCount(es) - Live(es[k]) + Live(e)
  {
    var init := es[..|es| - 1];
    if k == |es| - 1 {
      assert es[k := e][..|es| - 1] == init;
    } else {
      SumsUpdate(init, k, e);
      assert es[k := e][..|es| - 1] == init[k := e];
    }
  }

  lemma LogAppend(log: seq<Switch>, k: nat, v: Variant, j: nat, u: Variant)
    ensures SwitchesTo(log + [Switch(k, v)], j, u) == SwitchesTo(log, j, u) + (if (k, v) == (j, u) then 1 else 0)
    ensures LastVariant(log + [Switch(k, v)], j) == if k == j then v else LastVariant(log, j)
  {
    assert (log + [Switch(k, v)])[..|log|] == log;
  }

  // ---------------------------------------------------------------- invariants

  /** The entry was registered with a pointer that was not null, and nothing has been installed for it since. */
  predicate Inherits(s: State, e: Entry) { e.jitVersions == 0 && e.slot in s.tally.inherited }

  predicate EntryInv(cfg: Config, s: State, k: nat)
    requires k < |s.pipelines|
  {
    var e := s.pipelines[k];
    && (PointerAt(s, e.slot) != 0 <==> Dispatched(e) || Inherits(s, e))
    && (e.future.Some? <==> e.phase.SPECIALIZING?)
    && e.jitVersions <= cfg.maxVersions
    && (e.phase.SPECIALIZING? ==> e.jitVersions < cfg.maxVersions)
    && e.jitVersions == SwitchesTo(s.switches, k, Jit)
    && SwitchesTo(s.switches, k, Aot) + Live(e) <= e.jitVersions
    && LastVariant(s.switches, k) == if Dispatched(e) then Jit else Aot
  }

  predicate SlotsApart(es: seq<Entry>) {
    forall j, k :: 0 <= j < k < |es| ==> es[j].slot != es[k].slot
  }

  /** The counter laws. */
  predicate Counted(s: State) {
    && s.specializations == SumVersions(s.pipelines)
    && s.specializations == s.deoptimizations + s.activeJit + s.tally.onActive
    && s.activeJit == LiveCount(s.pipelines) + s.tally.onVerifying
    && s.deoptimizations >= 0
  }

  ghost predicate Inv(cfg: Config, s: State) {
    && (forall k :: 0 <= k < |s.pipelines| ==> EntryInv(cfg, s, k))
    && SlotsApart(s.pipelines) && Logged(s) && Counted(s)
  }

  ghost predicate Logged(s: State) {
    forall i :: 0 <= i < |s.switches| ==> s.switches[i].entry < |s.pipelines|
  }

  lemma {:induction false} UnloggedEntry(log: seq<Switch>, n: nat, k: nat, v: Variant)
    requires (forall i :: 0 <= i < |log| ==> log[i].entry < n) && k >= n
    ensures SwitchesTo(log, k, v) == 0 && LastVariant(log, k) == Aot
  {
    if log != [] { UnloggedEntry(log[..|log| - 1], n, k, v); }
  }

  ghost predicate OnlyPointer(s: State, s': State, slot: nat) {
    forall q {:trigger PointerAt(s', q)} :: q != slot ==> PointerAt(s', q) == PointerAt(s, q)
  }

  /** Another entry's invariant does not mind what happens to entry k's pointer, record and log. */
  lemma OtherKept(cfg: Config, s: State, s': State, k: nat, j: nat, v: Variant)
    requires Inv(cfg, s) && k < |s.pipelines| == |s'.pipelines| && j < |s.pipelines| && j != k
    requires s'.pipelines[j] == s.pipelines[j]
    requires OnlyPointer(s, s', s.pipelines[k].slot)
    requires s'.switches == s.switches || s'.switches == s.switches + [Switch(k, v)]
    requires s'.tally.inherited == s.tally.inherited
    ensures EntryInv(cfg, s', j)
  {
    assert EntryInv(cfg, s, j);
    LogAppend(s.switches, k, v, j, Jit);
    LogAppend(s.switches, k, v, j, Aot);
    assert s.pipelines[j].slot != s.pipelines[k].slot;
  }

  /** Assembling the invariant after a change of entry k. */
  lemma EntryChanged(cfg: Config, s: State, s': State, k: nat, e: Entry, v: Variant)
    requires Inv(cfg, s) && k < |s.pipelines|
    requires s'.pipelines == s.pipelines[k := e] && e.slot == s.pipelines[k].slot
    requires OnlyPointer(s, s', s.pipelines[k].slot)
    requires s'.switches == s.switches || s'.switches == s.switches + [Switch(k, v)]
    requires s'.tally.inherited == s.tally.inherited
    requires EntryInv(cfg, s', k) && Counted(s')
    ensures Inv(cfg, s')
  {
    hide EntryInv, Counted;
    forall j | 0 <= j < |s'.pipelines| ensures EntryInv(cfg, s', j) {
      if j != k { OtherKept(cfg, s, s', k, j, v); }
    }
  }

  /** The monitor's visit to one entry keeps everything. */
  lemma VisitKeeps(cfg: Config, s: State, k: nat, costs: Costs, f: Finding)
    requires Inv(cfg, s) && k < |s.pipelines|
    ensures Inv(cfg, Visit(cfg, s, k, costs, f))
  {
    hide SlotsApart, Logged, ShouldRespecialize, RequiredCycles, SumVersions, LiveCount, SwitchesTo, LastVariant;
    var s' := Visit(cfg, s, k, costs, f);
    if s' != s {
      var e' := s'.pipelines[k];
      var v := if s.pipelines[k].phase.SPECIALIZING? then Jit else Aot;
      assert EntryInv(cfg, s, k);
      SumsUpdate(s.pipelines, k, e');
      LogAppend(s.switches, k, v, k, Jit);
      LogAppend(s.switches, k, v, k, Aot);
      EntryChanged(cfg, s, s', k, e', v);
    }
  }

  lemma {:induction false} PassKeeps(cfg: Config, s: State, k: nat, costs: Costs, findings: nat -> Finding)
    requires Inv(cfg, s)
    ensures Inv(cfg, Pass(cfg, s, k, costs, findings))
    decreases |s.pipelines| - k
  {
    hide Inv, Visit;
    if k < |s.pipelines| {
      VisitKeeps(cfg, s, k, costs, findings(k));
      var s' := Visit(cfg, s, k, costs, findings(k));
      if |s'.pipelines| == |s.pipelines| { PassKeeps(cfg, s', k + 1, costs, findings); }
    }
  }

  lemma ForceKeeps(cfg: Config, s: State, name: string, ptr: nat)
    requires Inv(cfg, s)
    ensures Inv(cfg, Force(cfg, s, name, ptr))
  {
    hide SlotsApart, Logged, SumVersions, LiveCount, SwitchesTo, LastVariant;
    if MayForce(cfg, s, name) && ptr != 0 {
      var s' := Force(cfg, s, name, ptr);
      var k := Find(s, name);
      assert EntryInv(cfg, s, k);
      SumsUpdate(s.pipelines, k, s'.pipelines[k]);
      LogAppend(s.switches, k, Jit, k, Jit);
      LogAppend(s.switches, k, Jit, k, Aot);
      EntryChanged(cfg, s, s', k, s'.pipelines[k], Jit);
    }
  }

  lemma RegisterKeeps(cfg: Config, s: State, name: string, slot: nat)
    requires Inv(cfg, s) && OwnSlot(s, Registered(name, slot))
    ensures Inv(cfg, Register(s, name, slot))
  {
    hide SwitchesTo, LastVariant;
    var s' := Register(s, name, slot);
    var n := |s.pipelines|;
    UnloggedEntry(s.switches, n, n, Jit);
    UnloggedEntry(s.switches, n, n, Aot);
    assert s'.pipelines[..n] == s.pipelines;
    forall j | 0 <= j <= n ensures EntryInv(cfg, s', j) {
      if j < n { assert EntryInv(cfg, s, j); }
    }
  }

  lemma StepKeeps(cfg: Config, s: State, ev: Event)
    requires Inv(cfg, s) && OwnSlot(s, ev)
    ensures Inv(cfg, After(cfg, s, ev))
  {
    match ev
    case Registered(name, slot) => RegisterKeeps(cfg, s, name, slot);
    case Monitored(costs, findings) => PassKeeps(cfg, s, 0, costs, findings);
    case Forced(name, ptr) => ForceKeeps(cfg, s, name, ptr);
    case Stopped =>
  }

  lemma {:induction false} RunKeeps(cfg: Config, pointers: map<nat, nat>, events: seq<Event>)
    requires OwnSlotRun(cfg, Blank(pointers), events)
    ensures Inv(cfg, Run(cfg, Blank(pointers), events))
  {
    hide Inv, After, OwnSlot;
    if events == [] {
      BlankInv(cfg, pointers);
    } else {
      RunKeeps(cfg, pointers, events[..|events| - 1]);
      StepKeeps(cfg, Run(cfg, Blank(pointers), events[..|events| - 1]), events[|events| - 1]);
    }
  }

  lemma BlankInv(cfg: Config, pointers: map<nat, nat>)
    ensures Inv(cfg, Blank(pointers))
  {}

  lemma {:induction false} PassInherits(cfg: Config, s: State, k: nat, costs: Costs, findings: nat -> Finding)
    ensures Pass(cfg, s, k, costs, findings).tally == s.tally
    decreases |s.pipelines| - k
  {
    if k < |s.pipelines| {
      var s' := Visit(cfg, s, k, costs, findings(k));
      assert s'.tally == s.tally;
      if |s'.pipelines| == |s.pipelines| { PassInherits(cfg, s', k + 1, costs, findings); }
    }
  }

  /** Pipelines registered with null pointers inherit nothing. */
  lemma {:induction false} LegalInheritsNothing(cfg: Config, pointers: map<nat, nat>, events: seq<Event>)
    requires LegalRun(cfg, Blank(pointers), events)
    ensures OwnSlotRun(cfg, Blank(pointers), events) && Run(cfg, Blank(pointers), events).tally.inherited == {}
  {
    if events != [] {
      LegalInheritsNothing(cfg, pointers, events[..|events| - 1]);
      var s, ev := Run(cfg, Blank(pointers), events[..|events| - 1]), events[|events| - 1];
      match ev
      case Monitored(costs, findings) => PassInherits(cfg, s, 0, costs, findings);
      case _ =>
    }
  }

  // ---------------------------------------------------------------- the theorems

  /**
    * Whatever the pointers registered hold: a dispatch pointer is live exactly while its entry is verifying or active, unless the
    * entry still has a pointer it did not install; that ends with its first version. The log's last word always agrees.
    */
  lemma PointerMatchesExactly(cfg: Config, pointers: map<nat, nat>, events: seq<Event>, k: nat)
    requires OwnSlotRun(cfg, Blank(pointers), events) && k < |Run(cfg, Blank(pointers), events).pipelines|
    ensures
      var s := Run(cfg, Blank(pointers), events);
      var e := s.pipelines[k];
      && ((PointerAt(s, e.slot) != 0 <==> e.phase.VERIFYING? || e.phase.ACTIVE?) <==> !Inherits(s, e))
      && (LastVariant(s.switches, k) == Jit <==> e.phase.VERIFYING? || e.phase.ACTIVE?)
  {
    RunKeeps(cfg, pointers, events);
    assert EntryInv(cfg, Run(cfg, Blank(pointers), events), k);
  }

  /** In every reachable state the dispatch pointer is live exactly while verifying or active, and the log's last word agrees. */
  lemma PointerMatchesPhase(cfg: Config, pointers: map<nat, nat>, events: seq<Event>, k: nat)
    requires LegalRun(cfg, Blank(pointers), events) && k < |Run(cfg, Blank(pointers), events).pipelines|
    ensures
      var s := Run(cfg, Blank(pointers), events);
      var e := s.pipelines[k];
      && (PointerAt(s, e.slot) != 0 <==> e.phase.VERIFYING? || e.phase.ACTIVE?)
      && (PointerAt(s, e.slot) != 0 <==> LastVariant(s.switches, k) == Jit)
  {
    LegalInheritsNothing(cfg, pointers, events);
    PointerMatchesExactly(cfg, pointers, events, k);
  }

  /** A specializing entry has an unconsumed compile, every other entry has none, and only a monitor pass or shutdown ends that. */
  lemma FutureIsTheMonitors(cfg: Config, pointers: map<nat, nat>, events: seq<Event>, ev: Event, k: nat)
    requires OwnSlotRun(cfg, Blank(pointers), events) && k < |Run(cfg, Blank(pointers), events).pipelines|
    ensures
      var s := Run(cfg, Blank(pointers), events);
      var e, s' := s.pipelines[k], After(cfg, s, ev);
      && (e.phase.SPECIALIZING? <==> e.future.Some?)
      && (e.phase.SPECIALIZING? && (ev.Registered? || ev.Forced?) ==> |s'.pipelines| > k && s'.pipelines[k] == e)
  {
    RunKeeps(cfg, pointers, events);
    assert EntryInv(cfg, Run(cfg, Blank(pointers), events), k);
  }

  /** No pipeline is compiled into more versions than the budget, and it switches at most twice per version. */
  lemma VersionBudget(cfg: Config, pointers: map<nat, nat>, events: seq<Event>, k: nat)
    requires OwnSlotRun(cfg, Blank(pointers), events) && k < |Run(cfg, Blank(pointers), events).pipelines|
    ensures
      var s := Run(cfg, Blank(pointers), events);
      && s.pipelines[k].jitVersions <= cfg.maxVersions
      && SwitchesTo(s.switches, k, Jit) == s.pipelines[k].jitVersions
      && SwitchesTo(s.switches, k, Jit) + SwitchesTo(s.switches, k, Aot) <= 2 * cfg.maxVersions
  {
    RunKeeps(cfg, pointers, events);
    assert EntryInv(cfg, Run(cfg, Blank(pointers), events), k);
  }

  /** Entries whose dispatch pointer is not null. */
  function LivePointers(s: State, n: nat): nat
    requires n <= |s.pipelines|
  {
    if n == 0 then 0 else LivePointers(s, n - 1) + if PointerAt(s, s.pipelines[n - 1].slot) != 0 then 1 else 0
  }

  lemma {:induction false} LivePointersCount(cfg: Config, s: State, n: nat)
    requires Inv(cfg, s) && s.tally.inherited == {} && n <= |s.pipelines|
    ensures LivePointers(s, n) == LiveCount(s.pipelines[..n])
  {
    if n > 0 {
      LivePointersCount(cfg, s, n - 1);
      assert EntryInv(cfg, s, n - 1);
      assert s.pipelines[..n][..n - 1] == s.pipelines[..n - 1];
    }
  }

  /** Conservation: every version is counted once, and the live count differs from the live pointers by the forced commits that landed on a verifying entry. */
  lemma CountersConserved(cfg: Config, pointers: map<nat, nat>, events: seq<Event>)
    requires LegalRun(cfg, Blank(pointers), events)
    ensures
      var s := Run(cfg, Blank(pointers), events);
      && s.specializations == SumVersions(s.pipelines)
      && s.specializations - s.deoptimizations == s.activeJit + s.tally.onActive
      && s.activeJit == LivePointers(s, |s.pipelines|) + s.tally.onVerifying
      && 0 <= s.deoptimizations && 0 <= s.activeJit
  {
    LegalInheritsNothing(cfg, pointers, events);
    RunKeeps(cfg, pointers, events);
    var s := Run(cfg, Blank(pointers), events);
    LivePointersCount(cfg, s, |s.pipelines|);
    assert s.pipelines[..|s.pipelines|] == s.pipelines;
  }

  /** So the live count is right exactly while no forced commit has landed on a verifying entry. */
  lemma ActiveCountExact(cfg: Config, pointers: map<nat, nat>, events: seq<Event>)
    requires LegalRun(cfg, Blank(pointers), events)
    ensures
      var s := Run(cfg, Blank(pointers), events);
      s.activeJit == LivePointers(s, |s.pipelines|) <==> s.tally.onVerifying == 0
  {
    CountersConserved(cfg, pointers, events);
  }

  lemma {:induction false} VersionsBounded(cfg: Config, es: seq<Entry>)
    requires forall k :: 0 <= k < |es| ==> es[k].jitVersions <= cfg.maxVersions
    ensures SumVersions(es) <= |es| * cfg.maxVersions
  {
    if es != [] { VersionsBounded(cfg, es[..|es| - 1]); }
  }

  /** While the budgets of all registered pipelines fit in 32 bits no counter has wrapped. */
  lemma CountersFit(cfg: Config, pointers: map<nat, nat>, events: seq<Event>)
    requires OwnSlotRun(cfg, Blank(pointers), events)
    requires |Run(cfg, Blank(pointers), events).pipelines| * cfg.maxVersions < 0x1_0000_0000
    ensures
      var s := Run(cfg, Blank(pointers), events);
      && s.specializations % 0x1_0000_0000 == s.specializations
      && s.deoptimizations % 0x1_0000_0000 == s.deoptimizations
      && s.activeJit % 0x1_0000_0000 == s.activeJit
  {
    hide Run, SumVersions, OwnSlotRun, EntryInv, SlotsApart, Logged;
    var s := Run(cfg, Blank(pointers), events);
    RunKeeps(cfg, pointers, events);
    RunVersions(cfg, pointers, events);
    SmallWord(s.specializations);
    SmallWord(s.deoptimizations);
    SmallWord(s.activeJit);
  }

  lemma RunVersions(cfg: Config, pointers: map<nat, nat>, events: seq<Event>)
    requires OwnSlotRun(cfg, Blank(pointers), events)
    ensures SumVersions(Run(cfg, Blank(pointers), events).pipelines) <= |Run(cfg, Blank(pointers), events).pipelines| * cfg.maxVersions
  {
    RunKeeps(cfg, pointers, events);
    var s := Run(cfg, Blank(pointers), events);
    forall k | 0 <= k < |s.pipelines| ensures s.pipelines[k].jitVersions <= cfg.maxVersions {
      assert EntryInv(cfg, s, k);
    }
    VersionsBounded(cfg, s.pipelines);
  }

  lemma SmallWord(x: int)
    requires 0 <= x < 0x1_0000_0000
    ensures x % 0x1_0000_0000 == x
  {}

  // ---------------------------------------------------------------- where the source's own account does not hold

  /** A pipeline specialized by the monitor and, before it is verified, once more by force. */
  function ForcedWhileVerifying(): seq<Event> {
    var idle := (k: nat) => Finding(false, false, false, 7, None);
    var ready := (k: nat) => Finding(false, false, false, 7, Some(8));
    [Registered("p", 1), Monitored(map["p" := 20], idle), Monitored(map["p" := 20], idle), Monitored(map["p" := 20], ready), Forced("p", 9)]
  }

  /** One pipeline is live, two are counted. */
  lemma ForcedWhileVerifyingOvercounts()
    ensures LegalRun(Config(3, 10, 50), Blank(map[]), ForcedWhileVerifying())
    ensures
      var s := Run(Config(3, 10, 50), Blank(map[]), ForcedWhileVerifying());
      s.activeJit == 2 && |s.pipelines| == 1 && s.pipelines[0].slot == 1 && LivePointers(s, 1) == 1
  {
    hide Run, LegalRun, Pass;
    var cfg, es := Config(3, 10, 50), ForcedWhileVerifying();
    RunNone(cfg, Blank(map[]));
    var s0 := Blank(map[]);
    var s1 := Register(s0, "p", 1);
    PassOne(cfg, s1, es[1].costs, es[1].findings);
    var s2 := s1.(pipelines := [s1.pipelines[0].(phase := MONITORING, aotBaselineNS := 20)]);
    PassOne(cfg, s2, es[2].costs, es[2].findings);
    var s3 := s2.(pipelines := [s2.pipelines[0].(phase := SPECIALIZING, future := Some(7))]);
    PassOne(cfg, s3, es[3].costs, es[3].findings);
    var s4 := Visit(cfg, s3, 0, es[3].costs, es[3].findings(0));
    var s5 := Force(cfg, s4, "p", 9);
    assert Find(s4, "p") == 0;
    RunStep(cfg, s0, es, 1);
    RunStep(cfg, s0, es, 2);
    RunStep(cfg, s0, es, 3);
    RunStep(cfg, s0, es, 4);
    RunStep(cfg, s0, es, 5);
    assert es[..0] == [] && es[..5] == es;
    assert Run(cfg, s0, es[..1]) == s1 && Run(cfg, s0, es[..2]) == s2 && Run(cfg, s0, es[..3]) == s3 && Run(cfg, s0, es[..4]) == s4;
  }

  lemma PassOne(cfg: Config, s: State, costs: Costs, findings: nat -> Finding)
    requires |s.pipelines| == 1
    ensures Pass(cfg, s, 0, costs, findings) == Visit(cfg, s, 0, costs, findings(0))
  {
    hide Visit;
    var s' := Visit(cfg, s, 0, costs, findings(0));
    if |s'.pipelines| == 1 { assert Pass(cfg, s', 1, costs, findings) == s'; }
  }

  lemma RunNone(cfg: Config, s: State)
    ensures Run(cfg, s, []) == s && LegalRun(cfg, s, [])
  {}

  lemma RunStep(cfg: Config, s: State, es: seq<Event>, n: nat)
    requires 0 < n <= |es|
    ensures Run(cfg, s, es[..n]) == After(cfg, Run(cfg, s, es[..n - 1]), es[n - 1])
    ensures LegalRun(cfg, s, es[..n]) <==> LegalRun(cfg, s, es[..n - 1]) && Legal(Run(cfg, s, es[..n - 1]), es[n - 1])
    ensures OwnSlotRun(cfg, s, es[..n]) <==> OwnSlotRun(cfg, s, es[..n - 1]) && OwnSlot(Run(cfg, s, es[..n - 1]), es[n - 1])
  {
    assert es[..n][..n - 1] == es[..n - 1];
  }

  /** Shutdown leaves dispatch pointers alone: an entry's pointer registered again is inherited exactly if it was live. */
  lemma RestartMatches(cfg: Config, pointers: map<nat, nat>, events: seq<Event>, k: nat, name: string)
    requires LegalRun(cfg, Blank(pointers), events) && k < |Run(cfg, Blank(pointers), events).pipelines|
    ensures
      var s := Run(cfg, Blank(pointers), events);
      var s' := Register(After(cfg, s, Stopped), name, s.pipelines[k].slot);
      && (Inherits(s', s'.pipelines[0]) <==> s.pipelines[k].phase.VERIFYING? || s.pipelines[k].phase.ACTIVE?)
      && (Inherits(s', s'.pipelines[0]) <==> !(PointerAt(s', s'.pipelines[0].slot) != 0 <==> Dispatched(s'.pipelines[0])))
  {
    PointerMatchesPhase(cfg, pointers, events, k);
  }

  /** The pipeline above, stopped while it is live and registered again: it is dispatched to old code from the start. */
  lemma RestartWhileLive()
    ensures OwnSlotRun(Config(3, 10, 50), Blank(map[]), ForcedWhileVerifying() + [Stopped, Registered("p", 1)])
    ensures
      var s := Run(Config(3, 10, 50), Blank(map[]), ForcedWhileVerifying() + [Stopped, Registered("p", 1)]);
      |s.pipelines| == 1 && s.pipelines[0].phase.WARMUP? && PointerAt(s, 1) != 0
  {
    var cfg, es := Config(3, 10, 50), ForcedWhileVerifying();
    var all := es + [Stopped, Registered("p", 1)];
    ForcedWhileVerifyingOvercounts();
    LegalInheritsNothing(cfg, map[], es);
    ForcedLive();
    hide Run, LegalRun, OwnSlotRun;
    assert all[..5] == es && all[..7] == all;
    RunStep(cfg, Blank(map[]), all, 6);
    RunStep(cfg, Blank(map[]), all, 7);
  }

  lemma ForcedLive()
    ensures PointerAt(Run(Config(3, 10, 50), Blank(map[]), ForcedWhileVerifying()), 1) != 0
  {
    var cfg, es := Config(3, 10, 50), ForcedWhileVerifying();
    ForcedWhileVerifyingOvercounts();
    LegalInheritsNothing(cfg, map[], es);
    RunKeeps(cfg, map[], es);
    var s := Run(cfg, Blank(map[]), es);
    assert LivePointers(s, 1) == LivePointers(s, 0) + if PointerAt(s, s.pipelines[0].slot) != 0 then 1 else 0;
  }
}
