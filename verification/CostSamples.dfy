/** Per-thread cost samples and pending begins, read and reset together under one lock. */
module CostSamples {
  import opened Sequences
  import opened Words

  type Thread = nat

  /** A begun measurement that has not ended. */
  datatype Pending = Pending(name: string, since: nat)

  datatype Sample = Sample(totalNS: nat, count: nat)

  type SampleMap = map<string, Sample>

  /** One finished measurement. */
  datatype Record = Record(thread: Thread, name: string, ns: nat)

  function NoSample(): Sample { Sample(0, 0) }

  /** A sample in 64-bit words. */
  function AsWords(s: Sample): Sample { Sample(s.totalNS % WORD, s.count % WORD) }

  /** Addition of two samples, exact or in words. */
  function Plus(a: Sample, b: Sample): Sample { Sample(a.totalNS + b.totalNS, a.count + b.count) }

  function PlusWords(a: Sample, b: Sample): Sample { AsWords(Plus(a, b)) }

  lemma PlusWordsAgree(a: Sample, b: Sample)
    ensures PlusWords(AsWords(a), AsWords(b)) == AsWords(Plus(a, b))
    ensures PlusWords(AsWords(a), b) == AsWords(Plus(a, b))
  {
    WordSum(a.totalNS, b.totalNS);
    WordSum(a.count, b.count);
    WordSum(a.totalNS % WORD, b.totalNS);
    WordSum(a.count % WORD, b.count);
  }

  lemma WordSum(a: nat, b: nat)
    ensures (a % WORD + b % WORD) % WORD == (a + b) % WORD && a % WORD % WORD == a % WORD
  {
    var p, q := a / WORD, b / WORD;
    var low := a % WORD + b % WORD;
    DivMod(low, WORD, if low < WORD then 0 else 1, if low < WORD then low else low - WORD);
    DivMod(a + b, WORD, p + q + (if low < WORD then 0 else 1), low % WORD);
  }

  function SampleOf(m: SampleMap, name: string): Sample { if name in m then m[name] else NoSample() }

  // ---------------------------------------------------------------- the pending stack

  /** Index of the last pending begin of the name, or the length. */
  function LastBegin(pending: seq<Pending>, name: string): (i: nat)
    ensures i <= |pending| && (i < |pending| ==> pending[i].name == name)
    ensures forall j :: (if i < |pending| then i else -1) < j < |pending| ==> pending[j].name != name
  {
    if pending == [] then 0
    else if pending[|pending| - 1].name == name then |pending| - 1
    else
      var i := LastBegin(pending[..|pending| - 1], name);
      if i < |pending| - 1 then i else |pending|
  }

  function Erase(pending: seq<Pending>, i: nat): seq<Pending>
    requires i < |pending|
  {
    pending[..i] + pending[i + 1..]
  }

  /** What an end of the name leaves pending. */
  function AfterEnd(pending: seq<Pending>, name: string): seq<Pending> {
    var i := LastBegin(pending, name);
    if i < |pending| then Erase(pending, i) else pending
  }

  // ---------------------------------------------------------------- one log

  function LogTotal(log: seq<Record>, name: string): nat {
    if log == [] then 0 else LogTotal(log[..|log| - 1], name) + if log[|log| - 1].name == name then log[|log| - 1].ns else 0
  }

  function LogCount(log: seq<Record>, name: string): nat {
    if log == [] then 0 else LogCount(log[..|log| - 1], name) + if log[|log| - 1].name == name then 1 else 0
  }

  predicate Is(r: Record, t: Thread, name: string) { r.thread == t && r.name == name }

  /** What one thread recorded under the name. */
  function TotalBy(log: seq<Record>, t: Thread, name: string): nat {
    if log == [] then 0 else TotalBy(log[..|log| - 1], t, name) + if Is(log[|log| - 1], t, name) then log[|log| - 1].ns else 0
  }

  function CountBy(log: seq<Record>, t: Thread, name: string): nat {
    if log == [] then 0 else CountBy(log[..|log| - 1], t, name) + if Is(log[|log| - 1], t, name) then 1 else 0
  }

  function LoggedBy(log: seq<Record>, t: Thread, name: string): Sample { Sample(TotalBy(log, t, name), CountBy(log, t, name)) }

  /** The keys a scoped reset covers: the name itself and its stages. */
  predicate Covered(name: string, key: string) {
    key == name || (|key| >= |name| + 2 && key[..|name| + 2] == name + "::")
  }

  /** The key of a stage of the pipeline begins with the pipeline's name and double colons. */
  ghost predicate OwnKey(name: string, key: string) { key == name || exists stage :: key == name + "::" + stage }

  lemma CoveredExactly(name: string, key: string)
    ensures Covered(name, key) <==> OwnKey(name, key)
  {
    if Covered(name, key) && key != name { assert key == name + "::" + key[|name| + 2..]; }
    if stage :| key == name + "::" + stage { assert key[..|name| + 2] == name + "::"; }
  }

  function Without(log: seq<Record>, name: string): seq<Record> {
    if log == [] then log
    else if Covered(name, log[|log| - 1].name) then Without(log[..|log| - 1], name)
    else Without(log[..|log| - 1], name) + [log[|log| - 1]]
  }

  function WithoutThread(log: seq<Record>, t: Thread): seq<Record> {
    if log == [] then log
    else if log[|log| - 1].thread == t then WithoutThread(log[..|log| - 1], t)
    else WithoutThread(log[..|log| - 1], t) + [log[|log| - 1]]
  }

  /** All records are by threads of this list. */
  predicate By(log: seq<Record>, registered: seq<Thread>) { forall i :: 0 <= i < |log| ==> log[i].thread in registered }

  lemma LogMore(log: seq<Record>, r: Record, t: Thread, name: string)
    ensures LogTotal(log + [r], name) == LogTotal(log, name) + (if r.name == name then r.ns else 0)
    ensures LogCount(log + [r], name) == LogCount(log, name) + (if r.name == name then 1 else 0)
    ensures TotalBy(log + [r], t, name) == TotalBy(log, t, name) + (if Is(r, t, name) then r.ns else 0)
    ensures CountBy(log + [r], t, name) == CountBy(log, t, name) + (if Is(r, t, name) then 1 else 0)
  {
    assert (log + [r])[..|log|] == log;
  }

  /** A scoped reset forgets its own names' records and nobody else's. */
  lemma {:induction false} WithoutCounts(log: seq<Record>, name: string, key: string)
    ensures LogTotal(Without(log, name), key) == if Covered(name, key) then 0 else LogTotal(log, key)
    ensures LogCount(Without(log, name), key) == if Covered(name, key) then 0 else LogCount(log, key)
  {
    hide Covered;
    if log != [] {
      var init, last := log[..|log| - 1], log[|log| - 1];
      WithoutCounts(init, name, key);
      if !Covered(name, last.name) { LogMore(Without(init, name), last, last.thread, key); }
    }
  }

  lemma {:induction false} WithoutCountsBy(log: seq<Record>, name: string, t: Thread, key: string)
    ensures TotalBy(Without(log, name), t, key) == if Covered(name, key) then 0 else TotalBy(log, t, key)
    ensures CountBy(Without(log, name), t, key) == if Covered(name, key) then 0 else CountBy(log, t, key)
  {
    hide Covered;
    if log != [] {
      var init, last := log[..|log| - 1], log[|log| - 1];
      WithoutCountsBy(init, name, t, key);
      if !Covered(name, last.name) { LogMore(Without(init, name), last, t, key); }
    }
  }

  /** An exiting thread takes its records along, and only those. */
  lemma {:induction false} WithoutThreadCounts(log: seq<Record>, t: Thread, key: string)
    ensures LogTotal(WithoutThread(log, t), key) == LogTotal(log, key) - TotalBy(log, t, key)
    ensures LogCount(WithoutThread(log, t), key) == LogCount(log, key) - CountBy(log, t, key)
  {
    if log != [] {
      var init, last := log[..|log| - 1], log[|log| - 1];
      WithoutThreadCounts(init, t, key);
      if last.thread != t { LogMore(WithoutThread(init, t), last, t, key); }
    }
  }

  lemma {:induction false} WithoutThreadBy(log: seq<Record>, t: Thread, u: Thread, key: string)
    ensures TotalBy(WithoutThread(log, t), u, key) == if u == t then 0 else TotalBy(log, u, key)
    ensures CountBy(WithoutThread(log, t), u, key) == if u == t then 0 else CountBy(log, u, key)
  {
    if log != [] {
      var init, last := log[..|log| - 1], log[|log| - 1];
      WithoutThreadBy(init, t, u, key);
      if last.thread != t { LogMore(WithoutThread(init, t), last, u, key); }
    }
  }

  lemma {:induction false} KeptBy(log: seq<Record>, name: string, registered: seq<Thread>)
    requires By(log, registered)
    ensures By(Without(log, name), registered)
  {
    hide Covered;
    if log != [] { KeptBy(log[..|log| - 1], name, registered); }
  }

  lemma {:induction false} RemainingBy(log: seq<Record>, t: Thread, registered: seq<Thread>)
    requires By(log, registered)
    ensures By(WithoutThread(log, t), Removed(registered, t))
  {
    if log != [] {
      RemovedElems(registered, t);
      RemainingBy(log[..|log| - 1], t, registered);
    }
  }

  function Removed(registered: seq<Thread>, t: Thread): seq<Thread> {
    if registered == [] then []
    else Removed(registered[..|registered| - 1], t) + if registered[|registered| - 1] == t then [] else [registered[|registered| - 1]]
  }

  lemma {:induction false} RemovedElems(registered: seq<Thread>, t: Thread)
    ensures forall u :: u in Removed(registered, t) <==> u in registered && u != t
    ensures Distinct(registered) ==> Distinct(Removed(registered, t))
  {
    if registered != [] {
      var init, last := registered[..|registered| - 1], registered[|registered| - 1];
      RemovedElems(init, t);
      assert registered == init + [last];
      if Distinct(registered) && last != t {
        assert last !in init;
        assert last !in Removed(init, t);
      }
    }
  }

  lemma {:induction false} NoneBy(log: seq<Record>, registered: seq<Thread>, t: Thread, name: string)
    requires By(log, registered) && t !in registered
    ensures TotalBy(log, t, name) == 0 && CountBy(log, t, name) == 0
  {
    if log != [] { NoneBy(log[..|log| - 1], registered, t, name); }
  }

  lemma {:induction false} CountZero(log: seq<Record>, t: Thread, name: string)
    requires CountBy(log, t, name) == 0
    ensures TotalBy(log, t, name) == 0
  {
    if log != [] { CountZero(log[..|log| - 1], t, name); }
  }

  // ---------------------------------------------------------------- many threads

  /** What the threads of the list recorded under the name. */
  function SumTotal(registered: seq<Thread>, log: seq<Record>, name: string): nat {
    if registered == [] then 0
    else SumTotal(registered[..|registered| - 1], log, name) + TotalBy(log, registered[|registered| - 1], name)
  }

  function SumCount(registered: seq<Thread>, log: seq<Record>, name: string): nat {
    if registered == [] then 0
    else SumCount(registered[..|registered| - 1], log, name) + CountBy(log, registered[|registered| - 1], name)
  }

  lemma {:induction false} SumMore(registered: seq<Thread>, log: seq<Record>, r: Record, name: string)
    requires Distinct(registered)
    ensures SumTotal(registered, log + [r], name) == SumTotal(registered, log, name) + (if r.thread in registered && r.name == name then r.ns else 0)
    ensures SumCount(registered, log + [r], name) == SumCount(registered, log, name) + (if r.thread in registered && r.name == name then 1 else 0)
  {
    if registered != [] {
      var init, last := registered[..|registered| - 1], registered[|registered| - 1];
      assert registered == init + [last];
      SumMore(init, log, r, name);
      LogMore(log, r, last, name);
    }
  }

  lemma {:induction false} SumNone(registered: seq<Thread>, log: seq<Record>, name: string)
    requires log == []
    ensures SumTotal(registered, log, name) == 0 && SumCount(registered, log, name) == 0
  {
    if registered != [] { SumNone(registered[..|registered| - 1], log, name); }
  }

  /** However the records are spread over the threads, the threads' sums add up to the log's. */
  lemma {:induction false} SumIsLogged(registered: seq<Thread>, log: seq<Record>, name: string)
    requires Distinct(registered) && By(log, registered)
    ensures SumTotal(registered, log, name) == LogTotal(log, name) && SumCount(registered, log, name) == LogCount(log, name)
  {
    hide Distinct;
    if log == [] {
      SumNone(registered, log, name);
    } else {
      var init, last := log[..|log| - 1], log[|log| - 1];
      assert log == init + [last];
      SumIsLogged(registered, init, name);
      SumMore(registered, init, last, name);
    }
  }

  /** Each enrolled thread's map is what the log holds by it, in 64-bit words. */
  ghost predicate Refines(registered: seq<Thread>, samples: map<Thread, SampleMap>, log: seq<Record>) {
    && By(log, registered)
    && forall t, name {:trigger RefinesAt(samples, log, t, name)} :: t in registered ==> RefinesAt(samples, log, t, name)
  }

  ghost predicate RefinesAt(samples: map<Thread, SampleMap>, log: seq<Record>, t: Thread, name: string) {
    t in samples && SampleOf(samples[t], name) == AsWords(LoggedBy(log, t, name))
  }

  lemma EnrolRefines(registered: seq<Thread>, samples: map<Thread, SampleMap>, log: seq<Record>, t: Thread)
    requires Refines(registered, samples, log) && t !in registered
    ensures Refines(registered + [t], samples[t := map[]], log)
  {
    assert AsWords(NoSample()) == NoSample();
    hide AsWords;
    forall u, name {:trigger RefinesAt(samples[t := map[]], log, u, name)} | u in registered + [t] ensures RefinesAt(samples[t := map[]], log, u, name) {
      if u == t {
        NoneBy(log, registered, t, name);
      } else {
        assert RefinesAt(samples, log, u, name);
      }
    }
  }

  lemma EndRefines(registered: seq<Thread>, samples: map<Thread, SampleMap>, log: seq<Record>, t: Thread, name: string, ns: nat)
    requires Refines(registered, samples, log) && t in registered && t in samples
    ensures Refines(registered, samples[t := samples[t][name := PlusWords(SampleOf(samples[t], name), Sample(ns % WORD, 1))]],
                    log + [Record(t, name, ns)])
  {
    var m := PlusWords(SampleOf(samples[t], name), Sample(ns % WORD, 1));
    var samples', log' := samples[t := samples[t][name := m]], log + [Record(t, name, ns)];
    assert RefinesAt(samples, log, t, name);
    PlusWordsAgree(LoggedBy(log, t, name), Sample(ns, 1));
    assert AsWords(Sample(ns, 1)) == Sample(ns % WORD, 1);
    hide AsWords, PlusWords;
    forall u, key {:trigger RefinesAt(samples', log', u, key)} | u in registered ensures RefinesAt(samples', log', u, key) {
      assert RefinesAt(samples, log, u, key);
      LogMore(log, Record(t, name, ns), u, key);
    }
  }

  lemma EmptyRefines(registered: seq<Thread>, samples: map<Thread, SampleMap>)
    requires forall t :: t in registered ==> t in samples && samples[t] == map[]
    ensures Refines(registered, samples, [])
  {
    forall t, name {:trigger RefinesAt(samples, [], t, name)} | t in registered ensures RefinesAt(samples, [], t, name) {}
  }

  lemma ScopedRefines(registered: seq<Thread>, before: map<Thread, SampleMap>, after: map<Thread, SampleMap>, log: seq<Record>, name: string)
    requires Refines(registered, before, log)
    requires forall t :: t in registered ==> t in before && t in after && after[t] == Kept(before[t], name)
    ensures Refines(registered, after, Without(log, name))
  {
    assert AsWords(NoSample()) == NoSample();
    hide AsWords, Covered, Kept, Without;
    KeptBy(log, name, registered);
    forall t, key {:trigger RefinesAt(after, Without(log, name), t, key)} | t in registered ensures RefinesAt(after, Without(log, name), t, key) {
      assert RefinesAt(before, log, t, key);
      KeptSample(before[t], name, key);
      WithoutCountsBy(log, name, t, key);
    }
  }

  lemma KeptSample(m: SampleMap, name: string, key: string)
    ensures SampleOf(Kept(m, name), key) == if Covered(name, key) then NoSample() else SampleOf(m, key)
  {}

  lemma ExitRefines(registered: seq<Thread>, samples: map<Thread, SampleMap>, log: seq<Record>, t: Thread)
    requires Refines(registered, samples, log)
    ensures Refines(Removed(registered, t), samples - {t}, WithoutThread(log, t))
  {
    hide AsWords;
    RemovedElems(registered, t);
    RemainingBy(log, t, registered);
    forall u, key {:trigger RefinesAt(samples - {t}, WithoutThread(log, t), u, key)} | u in Removed(registered, t)
      ensures RefinesAt(samples - {t}, WithoutThread(log, t), u, key)
    {
      assert RefinesAt(samples, log, u, key);
      WithoutThreadBy(log, t, u, key);
    }
  }

  /** The mean the reader reports, rounded down; None if nothing is recorded under the name. */
  predicate Reports(result: map<string, nat>, name: string, total: nat, count: nat) {
    && (name in result <==> count > 0)
    && (count > 0 ==> result[name] == total / count)
  }

  class CostRecorder {
    /** Threads that have enrolled and not exited, in order, and the map each of them has. */
    var registered: seq<Thread>
    var samples: map<Thread, SampleMap>
    var pending: map<Thread, seq<Pending>>
    /** Every measurement finished since the last reset that covers it, by a thread that still lives. */
    ghost var log: seq<Record>

    ghost predicate Valid()
      reads this
    {
      && Distinct(registered) && (forall t :: t in registered <==> t in samples)
      && (forall t :: t in pending && pending[t] != [] ==> t in registered)
      && Refines(registered, samples, log)
    }

    constructor ()
      ensures Valid() && log == [] && pending == map[]
    {
      registered, samples, pending, log := [], map[], map[], [];
    }

    ghost function PendingOf(t: Thread): seq<Pending>
      reads this
    {
      if t in pending then pending[t] else []
    }

    /** Nothing unless instrumented; otherwise enrol the thread and push the begin. */
    method CostBegin(t: Thread, name: string, now: nat, instrument: bool)
      requires Valid()
      modifies this
      ensures Valid() && log == old(log)
      ensures PendingOf(t) == if instrument then old(PendingOf(t)) + [Pending(name, now)] else old(PendingOf(t))
      ensures forall u :: u != t ==> PendingOf(u) == old(PendingOf(u))
    {
      hide Refines;
      if !instrument { return; }
      if t !in registered {
        EnrolRefines(registered, samples, log, t);
        registered := registered + [t];
        samples := samples[t := map[]];
      }
      pending := pending[t := (if t in pending then pending[t] else []) + [Pending(name, now)]];
    }

    /** Nothing unless instrumented and begun; otherwise the last pending begin of the name is recorded and erased. */
    method CostEnd(t: Thread, name: string, now: nat, instrument: bool)
      requires Valid()
      requires forall i :: 0 <= i < |PendingOf(t)| ==> PendingOf(t)[i].since <= now
      modifies this
      ensures Valid()
      ensures PendingOf(t) == if instrument then AfterEnd(old(PendingOf(t)), name) else old(PendingOf(t))
      ensures forall u :: u != t ==> PendingOf(u) == old(PendingOf(u))
      ensures
        var i := LastBegin(old(PendingOf(t)), name);
        log == if instrument && i < |old(PendingOf(t))| then old(log) + [Record(t, name, now - old(PendingOf(t))[i].since)] else old(log)
    {
      hide Refines;
      if !instrument || t !in pending { return; }
      var stack := pending[t];
      var i := FindBegin(stack, name);
      if i == |stack| { return; }
      assert stack == PendingOf(t);
      RecordSample(t, name, now - stack[i].since);
      pending := pending[t := stack[..i] + stack[i + 1..]];
    }

    /** The search from the back. */
    static method FindBegin(stack: seq<Pending>, name: string) returns (i: nat)
      ensures i == LastBegin(stack, name)
    {
      i := |stack|;
      while i > 0
        invariant 0 <= i <= |stack|
        invariant forall j :: i <= j < |stack| ==> stack[j].name != name
      {
        if stack[i - 1].name == name {
          BeginFound(stack, name, i - 1);
          return i - 1;
        }
        i := i - 1;
      }
      NoBegin(stack, name);
      return |stack|;
    }

    /** The map update under the lock. */
    method RecordSample(t: Thread, name: string, duration: nat)
      requires Valid() && t in registered
      modifies this`samples, this`log
      ensures Valid() && log == old(log) + [Record(t, name, duration)]
    {
      hide Refines, PlusWords;
      var sample := if name in samples[t] then samples[t][name] else NoSample();
      EndRefines(registered, samples, log, t, name, duration);
      samples := samples[t := samples[t][name := PlusWords(sample, Sample(duration % WORD, 1))]];
      log := log + [Record(t, name, duration)];
    }

    static lemma BeginFound(stack: seq<Pending>, name: string, i: nat)
      requires i < |stack| && stack[i].name == name && forall j :: i < j < |stack| ==> stack[j].name != name
      ensures LastBegin(stack, name) == i
    {}

    static lemma NoBegin(stack: seq<Pending>, name: string)
      requires forall j :: 0 <= j < |stack| ==> stack[j].name != name
      ensures LastBegin(stack, name) == |stack|
    {}

    /** A thread ends: its map leaves the registry, with everything it recorded and had pending. */
    method ThreadExit(t: Thread)
      requires Valid()
      modifies this
      ensures Valid() && log == WithoutThread(old(log), t)
      ensures PendingOf(t) == [] && forall u :: u != t ==> PendingOf(u) == old(PendingOf(u))
    {
      hide Refines, WithoutThread;
      ExitRefines(registered, samples, log, t);
      RemovedElems(registered, t);
      registered, samples, pending := Removed(registered, t), samples - {t}, pending - {t};
      log := WithoutThread(log, t);
    }

    /** Clear every map. */
    method ResetCostSamples()
      requires Valid()
      modifies this
      ensures Valid() && log == [] && pending == old(pending)
    {
      hide Refines;
      var i := 0;
      while i < |registered|
        invariant 0 <= i <= |registered| && registered == old(registered) && pending == old(pending)
        invariant forall t :: t in registered <==> t in samples
        invariant forall j :: 0 <= j < i ==> samples[registered[j]] == map[]
      {
        samples := samples[registered[i] := map[]];
        i := i + 1;
      }
      log := [];
      EmptyRefines(registered, samples);
    }

    /** Erase one pipeline's key and its stages' keys from every map. */
    method ResetScoped(name: string)
      requires Valid()
      modifies this
      ensures Valid() && log == Without(old(log), name) && pending == old(pending)
      ensures forall key :: LogCount(log, key) == (if OwnKey(name, key) then 0 else LogCount(old(log), key))
                            && LogTotal(log, key) == if OwnKey(name, key) then 0 else LogTotal(old(log), key)
    {
      hide Refines, Kept, Without;
      var i := 0;
      while i < |registered|
        invariant 0 <= i <= |registered| && registered == old(registered) && pending == old(pending) && log == old(log)
        invariant forall t :: t in registered <==> t in samples
        invariant forall j :: 0 <= j < i ==> samples[registered[j]] == Kept(old(samples)[registered[j]], name)
        invariant forall j :: i <= j < |registered| ==> samples[registered[j]] == old(samples)[registered[j]]
      {
        var m := samples[registered[i]];
        samples := samples[registered[i] := Kept(m, name)];
        i := i + 1;
      }
      log := Without(log, name);
      ScopedRefines(registered, old(samples), samples, old(log), name);
      hide OwnKey;
      forall key ensures LogCount(log, key) == (if OwnKey(name, key) then 0 else LogCount(old(log), key)) &&
                         LogTotal(log, key) == if OwnKey(name, key) then 0 else LogTotal(old(log), key) {
        CoveredExactly(name, key);
        WithoutCounts(old(log), name, key);
      }
    }

    static lemma MeanReported(acc: SampleMap, result: map<string, nat>, name: string)
      requires result == map key | key in acc && acc[key].count > 0 :: acc[key].totalNS / acc[key].count
      ensures Reports(result, name, SampleOf(acc, name).totalNS, SampleOf(acc, name).count)
    {}

    /**
      * Totals and counts first over every map, then one division per name, in 64-bit words. As long as the measurements of a
      * name can be counted, its mean is reported, of the wrapped total.
      */
    method GetCostSamples() returns (result: map<string, nat>)
      requires Valid()
      ensures forall name :: LogCount(log, name) < WORD ==> Reports(result, name, LogTotal(log, name) % WORD, LogCount(log, name))
    {
      hide Reports, Accumulate, LogTotal, LogCount, Refines, Summed, SumTotal, SumCount;
      var acc: SampleMap := map[];
      var i := 0;
      assert registered[..0] == [];
      forall name ensures Summed(acc, registered[..0], log, name) { SummedNone(log, name); }
      while i < |registered|
        invariant 0 <= i <= |registered|
        invariant forall name :: Summed(acc, registered[..i], log, name)
      {
        var acc' := Accumulate(acc, samples[registered[i]]);
        ghost var next := registered[..i + 1];
        assert next == registered[..i] + [registered[i]];
        forall name ensures Summed(acc', next, log, name) {
          assert Summed(acc, registered[..i], log, name);
          AddShard(acc, registered[..i], registered[i], registered, samples, log, name);
        }
        acc := acc';
        i := i + 1;
      }
      assert registered[..i] == registered;
      result := map name | name in acc && acc[name].count > 0 :: acc[name].totalNS / acc[name].count;
      forall name | LogCount(log, name) < WORD
        ensures Reports(result, name, LogTotal(log, name) % WORD, LogCount(log, name))
      {
        assert Summed(acc, registered, log, name);
        RefinesBy(registered, samples, log);
        SumIsLogged(registered, log, name);
        SummedMeans(acc, registered, log, name);
        MeanReported(acc, result, name);
      }
    }
  }

  /** The accumulated words of a name are the threads' sums, the total wrapped, if the count fits. */
  ghost predicate Summed(acc: SampleMap, registered: seq<Thread>, log: seq<Record>, name: string) {
    SumCount(registered, log, name) < WORD ==>
      SampleOf(acc, name) == Sample(SumTotal(registered, log, name) % WORD, SumCount(registered, log, name))
  }

  lemma SummedNone(log: seq<Record>, name: string)
    ensures Summed(map[], [], log, name)
  {}

  lemma SummedMeans(acc: SampleMap, registered: seq<Thread>, log: seq<Record>, name: string)
    requires Summed(acc, registered, log, name) && SumCount(registered, log, name) < WORD
    ensures SampleOf(acc, name) == Sample(SumTotal(registered, log, name) % WORD, SumCount(registered, log, name))
  {}

  lemma RefinesBy(registered: seq<Thread>, samples: map<Thread, SampleMap>, log: seq<Record>)
    requires Refines(registered, samples, log)
    ensures By(log, registered)
  {}

  lemma AddShard(acc: SampleMap, before: seq<Thread>, t: Thread, registered: seq<Thread>, samples: map<Thread, SampleMap>, log: seq<Record>, name: string)
    requires t in registered && t in samples && Refines(registered, samples, log) && Summed(acc, before, log, name)
    ensures Summed(Accumulate(acc, samples[t]), before + [t], log, name)
  {
    assert RefinesAt(samples, log, t, name);
    hide Refines, TotalBy, CountBy;
    assert (before + [t])[..|before|] == before;
    var a, e := Sample(SumTotal(before, log, name), SumCount(before, log, name)), LoggedBy(log, t, name);
    if e.count == 0 { CountZero(log, t, name); }
    ShardWords(a, e, SampleOf(acc, name));
  }

  lemma ShardWords(a: Sample, e: Sample, acc: Sample)
    requires a.count < WORD ==> acc == Sample(a.totalNS % WORD, a.count)
    requires e.count == 0 ==> e.totalNS == 0
    ensures
      var acc' := if AsWords(e).count > 0 then PlusWords(acc, AsWords(e)) else acc;
      Plus(a, e).count < WORD ==> acc' == Sample(Plus(a, e).totalNS % WORD, Plus(a, e).count)
  {
    if a.count + e.count < WORD {
      WordSmall(e.count);
      WordSmall(a.count + e.count);
      WordSum(a.totalNS, e.totalNS);
    }
  }

  lemma WordSmall(x: nat)
    requires x < WORD
    ensures x % WORD == x
  {
    DivMod(x, WORD, 0, x);
  }

  lemma AtLeast(x: nat, m: nat, q: nat)
    requires m > 0 && x >= q * m
    ensures x / m >= q
  {
    var k := x / m;
    assert x < k * m + m;
    if k < q { MulLe(k + 1, q, m); }
  }

  lemma MulLe(a: nat, b: nat, m: nat)
    requires a <= b
    ensures a * m <= b * m
  {
    assert b * m == a * m + (b - a) * m;
  }

  /** The mean of a wrapped total is the mean exactly if the total did not wrap. */
  lemma MeanExactly(total: nat, count: nat)
    requires 0 < count < WORD
    ensures total % WORD / count == total / count <==> total < WORD
  {
    if total >= WORD {
      var low, q := total % WORD, total % WORD / count;
      assert q * count <= low < q * count + count;
      assert total >= low + WORD > (q + 1) * count;
      assert total / count >= q + 1 by { AtLeast(total, count, q + 1); }
    }
  }

  function Kept(m: SampleMap, name: string): SampleMap { map key | key in m && !Covered(name, key) :: m[key] }

  /** One thread's samples added to the accumulated ones; samples that count nothing are left out. */
  function Accumulate(acc: SampleMap, m: SampleMap): (r: SampleMap)
    ensures forall name {:trigger SampleOf(r, name)} ::
              SampleOf(r, name) == if SampleOf(m, name).count > 0 then PlusWords(SampleOf(acc, name), SampleOf(m, name)) else SampleOf(acc, name)
  {
    map name | name in acc.Keys + m.Keys && (name in acc || m[name].count > 0) ::
      if name in m && m[name].count > 0
      then PlusWords(SampleOf(acc, name), m[name])
      else SampleOf(acc, name)
  }
}
