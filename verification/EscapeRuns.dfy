/** Running a def-use graph on pointers, and what the escape walk's verdict means for the runs. */
module EscapeRuns {
  import opened EscapeWalk
  import opened Paths

  // ---------------------------------------------------------------- runs

  /**
    * Pointers are known by the instruction that made what they point to. What each value last was, which object was
    * ever stored in which, and the objects whose pointers were given away.
    */
  datatype State = State(vals: map<Id, Id>, mem: set<(Id, Id)>, given: set<Id>)

  function Set(s: State, u: Id, p: Id): State { s.(vals := s.vals[u := p]) }

  function Objects(s: State, vs: seq<Id>): set<Id> { set v | v in vs && v in s.vals :: s.vals[v] }

  /** Where a pointer leaves the scope's hands. */
  predicate GivesAway(i: Inst, scope: set<nat>) {
    i.Return? || i.OtherUse? || (i.Call? && (i.callee.Indirect? || (i.callee.Direct? && i.callee.callee !in scope)))
  }

  /** A call may copy what one argument's object holds to another's. */
  ghost predicate Copies(s: State, vs: seq<Id>, copied: set<(Id, Id)>) {
    forall d, p {:trigger (d, p) in copied} :: (d, p) in copied ==> d in Objects(s, vs) && exists o :: o in Objects(s, vs) && (o, p) in s.mem
  }

  /** What the call u may give and copy. */
  ghost predicate Calls(s: State, vs: seq<Id>, backs: set<Id>, u: Id, p: Id, copied: set<(Id, Id)>) {
    (p == u || (u in backs && p in Objects(s, vs))) && Copies(s, vs, copied)
  }

  ghost function Called(g: Graph, scope: set<nat>, s: State, u: Id, p: Id, copied: set<(Id, Id)>): State
    requires u < |g.insts|
  {
    State(s.vals[u := p], s.mem + copied, s.given + if GivesAway(g.insts[u], scope) then Objects(s, Operands(g.insts[u])) else {})
  }

  /**
    * Executing u; instructions may come in any order and any number of times. A load gives what was stored there or something
    * unrelated; a call gives something unrelated, or an argument if it is one of those that hand an argument back.
    */
  ghost predicate Step(g: Graph, scope: set<nat>, backs: set<Id>, s: State, u: Id, s': State) {
    && u < |g.insts|
    && match g.insts[u]
       case Source => s' == Set(s, u, u)
       case Alloca => s' == Set(s, u, u)
       case Gep(b, _) => b in s.vals && s' == Set(s, u, s.vals[b])
       case Cast(b) => b in s.vals && s' == Set(s, u, s.vals[b])
       case Phi(vs) => exists p :: p in Objects(s, vs) && s' == Set(s, u, p)
       case Select(vs) => exists p :: p in Objects(s, vs) && s' == Set(s, u, p)
       case Load(a) => a in s.vals && exists p :: (p == u || (s.vals[a], p) in s.mem) && s' == Set(s, u, p)
       case Store(v, d) => v in s.vals && d in s.vals && s' == s.(mem := s.mem + {(s.vals[d], s.vals[v])})
       case Call(_, vs) =>
         exists p, copied :: Calls(s, vs, backs, u, p, copied) && s' == Called(g, scope, s, u, p, copied)
       case Return(v) => s' == s.(given := s.given + Objects(s, [v]))
       case OtherUse(vs) => s' == Set(s, u, u).(given := s.given + Objects(s, vs))
  }

  ghost function Moves(g: Graph, scope: set<nat>, backs: set<Id>): (State, State) -> bool {
    (s: State, s': State) => exists u :: Step(g, scope, backs, s, u, s')
  }

  const START := State(map[], {}, {})

  ghost predicate Reachable(g: Graph, scope: set<nat>, backs: set<Id>, s: State) { Closure(Moves(g, scope, backs), START, s) }

  // ---------------------------------------------------------------- letting an allocation go

  predicate InBoundsOf(g: Graph, b: Id, d: Id) { d < |g.insts| && (g.insts[d] == Gep(b, true) || g.insts[d] == Cast(b)) }

  ghost function InBoundsSteps(g: Graph): (Id, Id) -> bool { (b: Id, d: Id) => InBoundsOf(g, b, d) }

  /** d is the slot a or computed from it by in-bounds offsets and casts. */
  ghost predicate SlotAddress(g: Graph, a: Id, d: Id) { a < |g.insts| && g.insts[a].Alloca? && Closure(InBoundsSteps(g), a, d) }

  /** u gives the pointer v away, or stores it where the address is not that of a slot. */
  ghost predicate LetsValueGo(g: Graph, scope: set<nat>, v: Id, u: Id)
    requires u < |g.insts|
  {
    match g.insts[u]
    case Store(_, d) => d != v && forall a :: !SlotAddress(g, a, d)
    case i => GivesAway(i, scope)
  }

  /** u does more with the address v than load, offset, or store into it. */
  predicate TakesAddress(i: Inst, v: Id) { !i.Load? && !i.Gep? && (i.Store? ==> i.stored == v) }

  /** Executing u in s lets go of x, or of a slot that holds x. */
  ghost predicate LetsGo(g: Graph, scope: set<nat>, s: State, x: Id, u: Id) {
    && u < |g.insts|
    && exists v ::
         && v in Operands(g.insts[u]) && v in s.vals
         && ((s.vals[v] == x && LetsValueGo(g, scope, v, u))
             || (s.vals[v] < |g.insts| && g.insts[s.vals[v]].Alloca? && (s.vals[v], x) in s.mem && TakesAddress(g.insts[u], v)))
  }

  /** x was not given away, is stored only in slots, and the slots it is stored in were neither given away nor stored. */
  ghost predicate Safe(g: Graph, s: State, x: Id) {
    && x !in s.given
    && (forall o {:trigger (o, x) in s.mem} :: (o, x) in s.mem ==>
          && o < |g.insts| && g.insts[o].Alloca? && o !in s.given
          && forall h :: (h, o) !in s.mem)
  }

  // ---------------------------------------------------------------- what the walk does not follow

  /** A tracked value is stored into the very object it points to. */
  ghost predicate SelfStored(g: Graph, x: Id)
    requires WellFormed(g)
  {
    exists v: Id, u: Id :: Tracked(g, x, v) && u < |g.insts| && g.insts[u] == Store(v, v)
  }

  /** A call that may hand an argument back gets a tracked one. */
  ghost predicate HandedBack(g: Graph, backs: set<Id>, x: Id)
    requires WellFormed(g)
  {
    exists v: Id, u: Id :: Tracked(g, x, v) && u in backs && u < |g.insts| && g.insts[u].Call? && v in g.insts[u].args
  }

  // ---------------------------------------------------------------- addresses of slots

  lemma OperandUses(g: Graph, v: Id, u: Id)
    requires WellFormed(g) && u < |g.insts| && v in Operands(g.insts[u])
    ensures Uses(g, v, u) && v < |g.insts|
  {}

  lemma {:induction false} BaseIs(g: Graph, d: Id)
    requires WellFormed(g) && d < |g.insts|
    ensures Closure(InBoundsSteps(g), Base(g, d), d)
    decreases d
  {
    match g.insts[d]
    case Gep(b, true) =>
      BaseIs(g, b);
      ClosureStep(InBoundsSteps(g), Base(g, b), b, d);
    case Cast(b) =>
      BaseIs(g, b);
      ClosureStep(InBoundsSteps(g), Base(g, b), b, d);
    case _ => ClosureSelf(InBoundsSteps(g), d);
  }

  lemma {:induction false} BaseAlong(g: Graph, p: seq<Id>)
    requires WellFormed(g) && |p| > 0 && Along(InBoundsSteps(g), p) && p[0] < |g.insts| && g.insts[p[0]].Alloca?
    ensures p[|p| - 1] < |g.insts| && Base(g, p[|p| - 1]) == p[0]
  {
    if |p| > 1 {
      var q := p[..|p| - 1];
      forall i {:trigger q[i]} | 0 <= i < |q| - 1 ensures InBoundsSteps(g)(q[i], q[i + 1]) { assert InBoundsSteps(g)(p[i], p[i + 1]); }
      BaseAlong(g, q);
      assert InBoundsSteps(g)(p[|p| - 2], p[|p| - 1]);
    }
  }

  /** Stripping in-bounds offsets and casts finds the slot exactly if there is one. */
  lemma BaseExactly(g: Graph, a: Id, d: Id)
    requires WellFormed(g) && d < |g.insts|
    ensures SlotAddress(g, a, d) <==> Base(g, d) == a && g.insts[a].Alloca?
  {
    BaseIs(g, d);
    if SlotAddress(g, a, d) {
      var p :| PathTo(InBoundsSteps(g), p, a, d);
      BaseAlong(g, p);
    }
  }

  // ---------------------------------------------------------------- judged not to escape

  /** A local slot whose address no user lets out. */
  ghost predicate Kept(g: Graph, a: Id) { a < |g.insts| && g.insts[a].Alloca? && !SlotLeaks(g, a) }

  /** What holds x is tracked, and x is stored only in slots it is spilled to that keep their address. */
  ghost predicate TracksAll(g: Graph, s: State, x: Id)
    requires WellFormed(g)
  {
    && x !in s.given
    && (forall v {:trigger v in s.vals} :: v in s.vals && s.vals[v] == x ==> v < |g.insts| && Tracked(g, x, v))
    && (forall o {:trigger (o, x) in s.mem} :: (o, x) in s.mem ==> Kept(g, o) && SpilledTo(g, x, o))
  }

  ghost predicate SpilledTo(g: Graph, x: Id, o: Id)
    requires WellFormed(g)
  {
    exists v, u :: Tracked(g, x, v) && Spills(g, v, u, o)
  }

  /** The address of a slot that is kept is held only by offsets in it, was not stored and not given away. */
  ghost predicate SlotsKept(g: Graph, s: State)
    requires WellFormed(g)
  {
    && (forall a {:trigger Kept(g, a)} :: Kept(g, a) ==> a !in s.given && forall h :: (h, a) !in s.mem)
    && (forall v {:trigger v in s.vals} :: v in s.vals && Kept(g, s.vals[v]) ==> InSlot(g, s.vals[v], v))
  }

  /** An in-bounds offset or cast of a slot holds its address. */
  ghost predicate AddressesRight(g: Graph, s: State)
    requires WellFormed(g)
  {
    forall v {:trigger v in s.vals} :: v in s.vals ==> v < |g.insts| && (g.insts[Base(g, v)].Alloca? ==> s.vals[v] == Base(g, v))
  }

  lemma AddressesStep(g: Graph, scope: set<nat>, backs: set<Id>, s: State, u: Id, s': State)
    requires WellFormed(g) && AddressesRight(g, s) && Step(g, scope, backs, s, u, s')
    ensures AddressesRight(g, s')
  {
    hide WellFormed;
    forall v | v in s'.vals ensures v < |g.insts| && (g.insts[Base(g, v)].Alloca? ==> s'.vals[v] == Base(g, v)) {
      if v != u { assert v in s.vals; }
    }
  }

  /** A holder of a kept slot's address is only loaded from, offset, or stored into. */
  lemma HolderUse(g: Graph, s: State, v: Id, u: Id)
    requires WellFormed(g) && SlotsKept(g, s) && v in s.vals && Kept(g, s.vals[v]) && u < |g.insts| && v in Operands(g.insts[u])
    ensures g.insts[u].Load? || g.insts[u].Gep? || (g.insts[u].Store? && g.insts[u].stored != v)
    ensures g.insts[u].Gep? ==> InSlot(g, s.vals[v], u)
  {
    OperandUses(g, v, u);
    hide WellFormed;
    assert InSlot(g, s.vals[v], v);
    assert !LeaksAddress(g, v, u);
    if g.insts[u].Gep? {
      assert SlotOffset(g, v, u);
      ClosureStep(SlotSteps(g), s.vals[v], v, u);
    }
  }

  lemma SlotsStep(g: Graph, scope: set<nat>, backs: set<Id>, s: State, u: Id, s': State)
    requires WellFormed(g) && SlotsKept(g, s) && Step(g, scope, backs, s, u, s')
    ensures SlotsKept(g, s')
  {
    hide WellFormed, InSlot, SlotLeaks, LeaksAddress, Copies;
    forall v | v in Operands(g.insts[u]) && v in s.vals && Kept(g, s.vals[v])
      ensures g.insts[u].Load? || g.insts[u].Gep? || (g.insts[u].Store? && g.insts[u].stored != v)
      ensures g.insts[u].Gep? ==> InSlot(g, s.vals[v], u)
    {
      HolderUse(g, s, v, u);
    }
    SlotSelf(g, u);
    forall a | Kept(g, a) ensures a !in s'.given && forall h :: (h, a) !in s'.mem {
      SlotStaysIn(g, scope, backs, s, u, s', a);
    }
  }

  lemma SlotSelf(g: Graph, a: Id)
    ensures InSlot(g, a, a)
  {
    ClosureSelf(SlotSteps(g), a);
  }

  lemma SlotStaysIn(g: Graph, scope: set<nat>, backs: set<Id>, s: State, u: Id, s': State, a: Id)
    requires WellFormed(g) && SlotsKept(g, s) && Step(g, scope, backs, s, u, s') && Kept(g, a)
    requires forall v :: v in Operands(g.insts[u]) && v in s.vals && s.vals[v] == a ==>
               g.insts[u].Load? || g.insts[u].Gep? || (g.insts[u].Store? && g.insts[u].stored != v)
    ensures a !in s'.given && forall h :: (h, a) !in s'.mem
  {
    hide WellFormed, InSlot, SlotLeaks, Kept;
    assert a !in s.given && forall h :: (h, a) !in s.mem;
    match g.insts[u]
    case Call(_, vs) =>
      assert a !in Objects(s, vs);
      var p, copied :| Calls(s, vs, backs, u, p, copied) && s' == Called(g, scope, s, u, p, copied);
      forall h ensures (h, a) !in s'.mem { assert (h, a) !in s.mem; }
    case OtherUse(vs) => assert a !in Objects(s, vs);
    case Return(v) => assert a !in Objects(s, [v]);
    case _ =>
  }

  /** The walk follows all there is: x does not escape, is not stored into itself and not handed back. */
  ghost predicate Followed(g: Graph, scope: set<nat>, backs: set<Id>, x: Id)
    requires WellFormed(g)
  {
    x < |g.insts| && g.insts[x].Source? && !Escapes(g, scope, x) && !SelfStored(g, x) && !HandedBack(g, backs, x)
  }

  /** What the users of a holder of x can be. */
  lemma HolderOfX(g: Graph, scope: set<nat>, backs: set<Id>, x: Id, v: Id, u: Id)
    requires WellFormed(g) && Followed(g, scope, backs, x) && Tracked(g, x, v) && u < |g.insts| && v in Operands(g.insts[u])
    ensures !GivesAway(g.insts[u], scope)
    ensures Forwards(g.insts[u]) ==> Tracked(g, x, u)
    ensures g.insts[u].Call? ==> u !in backs
    ensures g.insts[u].Store? && g.insts[u].stored == v ==>
              var d := g.insts[u].dest; d < |g.insts| && g.insts[Base(g, d)].Alloca? && !SlotLeaks(g, Base(g, d)) && SpilledTo(g, x, Base(g, d))
  {
    OperandUses(g, v, u);
    assert !Escape(g, scope, v, u);
    hide WellFormed, SlotLeaks, Tracked, Reload;
    if Forwards(g.insts[u]) {
      assert TracksVia(g, v, u, u);
      TrackedStep(g, x, v, u, u);
    }
    if g.insts[u].Store? && g.insts[u].stored == v {
      var d := g.insts[u].dest;
      assert d in Operands(g.insts[u]);
      OperandUses(g, d, u);
      assert g.insts[u] == Store(v, d);
      assert Spills(g, v, u, Base(g, d));
    }
  }

  /** What a kept slot x is spilled to gives back is tracked. */
  lemma ReloadTracked(g: Graph, x: Id, o: Id, a: Id, u: Id)
    requires WellFormed(g) && SpilledTo(g, x, o) && InSlot(g, o, a) && u < |g.insts| && g.insts[u] == Load(a)
    ensures Tracked(g, x, u)
  {
    OperandUses(g, a, u);
    hide WellFormed, InSlot, Tracked;
    var v, w :| Tracked(g, x, v) && Spills(g, v, w, o);
    assert LoadsFrom(g, a, u);
    assert Reload(g, o, u);
    assert TracksVia(g, v, w, u);
    TrackedStep(g, x, v, w, u);
  }

  /** All that is known of a reachable state of a graph the walk follows. */
  ghost predicate Settled(g: Graph, s: State, x: Id)
    requires WellFormed(g)
  {
    AddressesRight(g, s) && SlotsKept(g, s) && TracksAll(g, s, x)
  }

  lemma ValsTracked(g: Graph, scope: set<nat>, backs: set<Id>, s: State, u: Id, s': State, x: Id)
    requires WellFormed(g) && Followed(g, scope, backs, x) && SlotsKept(g, s) && TracksAll(g, s, x) && Step(g, scope, backs, s, u, s')
    ensures u in s'.vals && s'.vals[u] == x && (u !in s.vals || s'.vals[u] != s.vals[u]) ==> Tracked(g, x, u)
  {
    if u in s'.vals && s'.vals[u] == x && (u !in s.vals || s'.vals[u] != s.vals[u]) {
      ClosureSelf(TrackSteps(g), x);
      assert Tracked(g, x, x);
      match g.insts[u]
      case Load(a) =>
        if u != x {
          assert (s.vals[a], x) in s.mem;
          assert Kept(g, s.vals[a]) && a in s.vals;
          ReloadTracked(g, x, s.vals[a], a, u);
        }
      case Gep(b, _) => HolderOfX(g, scope, backs, x, b, u);
      case Cast(b) => HolderOfX(g, scope, backs, x, b, u);
      case Phi(vs) =>
        var v :| v in vs && v in s.vals && s.vals[v] == x;
        HolderOfX(g, scope, backs, x, v, u);
      case Select(vs) =>
        var v :| v in vs && v in s.vals && s.vals[v] == x;
        HolderOfX(g, scope, backs, x, v, u);
      case _ =>
    }
  }

  lemma MemTracked(g: Graph, scope: set<nat>, backs: set<Id>, s: State, u: Id, s': State, x: Id, o: Id)
    requires WellFormed(g) && Followed(g, scope, backs, x) && AddressesRight(g, s) && SlotsKept(g, s) && TracksAll(g, s, x) && Step(g, scope, backs, s, u, s')
    requires (o, x) in s'.mem
    ensures Kept(g, o) && SpilledTo(g, x, o)
  {
    if (o, x) !in s.mem {
      match g.insts[u]
      case Store(v, d) =>
        HolderOfX(g, scope, backs, x, v, u);
        assert d in s.vals;
      case Call(_, vs) =>
        var p, copied :| Calls(s, vs, backs, u, p, copied) && s' == Called(g, scope, s, u, p, copied);
        var h :| h in Objects(s, vs) && (h, x) in s.mem;
        var a :| a in vs && a in s.vals && s.vals[a] == h;
        HolderUse(g, s, a, u);
    }
  }

  lemma GivenTracked(g: Graph, scope: set<nat>, backs: set<Id>, s: State, u: Id, s': State, x: Id)
    requires WellFormed(g) && Followed(g, scope, backs, x) && TracksAll(g, s, x) && Step(g, scope, backs, s, u, s')
    ensures x !in s'.given
  {
    if x in s'.given {
      var v :| v in Operands(g.insts[u]) && v in s.vals && s.vals[v] == x && GivesAway(g.insts[u], scope);
      HolderOfX(g, scope, backs, x, v, u);
    }
  }

  lemma SettledStep(g: Graph, scope: set<nat>, backs: set<Id>, s: State, u: Id, s': State, x: Id)
    requires WellFormed(g) && Followed(g, scope, backs, x) && Settled(g, s, x) && Step(g, scope, backs, s, u, s')
    ensures Settled(g, s', x)
  {
    hide WellFormed, Kept, SpilledTo, Tracked, Step, Followed;
    AddressesStep(g, scope, backs, s, u, s');
    SlotsStep(g, scope, backs, s, u, s');
    ValsTracked(g, scope, backs, s, u, s', x);
    GivenTracked(g, scope, backs, s, u, s', x);
    OnlyHere(g, scope, backs, s, u, s');
    forall o {:trigger (o, x) in s'.mem} | (o, x) in s'.mem ensures Kept(g, o) && SpilledTo(g, x, o) {
      MemTracked(g, scope, backs, s, u, s', x, o);
    }
    hide AddressesRight, SlotsKept;
    assert u < |g.insts|;
  }

  /** A step gives a value to its own instruction only, and takes nothing back. */
  lemma OnlyHere(g: Graph, scope: set<nat>, backs: set<Id>, s: State, u: Id, s': State)
    requires Step(g, scope, backs, s, u, s')
    ensures u < |g.insts| && (forall v :: v in s.vals ==> v in s'.vals) && (forall v :: v in s'.vals && v != u ==> v in s.vals && s'.vals[v] == s.vals[v])
    ensures s.mem <= s'.mem
  {}

  lemma {:induction false} AllAddressesRight(g: Graph, scope: set<nat>, backs: set<Id>, run: seq<State>)
    requires WellFormed(g) && |run| > 0 && run[0] == START && Along(Moves(g, scope, backs), run)
    ensures AddressesRight(g, run[|run| - 1])
  {
    hide WellFormed, Step;
    if |run| > 1 {
      var before := ShorterRun(g, scope, backs, run);
      AllAddressesRight(g, scope, backs, before);
      var u :| Step(g, scope, backs, run[|run| - 2], u, run[|run| - 1]);
      AddressesStep(g, scope, backs, run[|run| - 2], u, run[|run| - 1]);
    }
  }

  lemma ShorterRun(g: Graph, scope: set<nat>, backs: set<Id>, run: seq<State>) returns (before: seq<State>)
    requires |run| > 1 && Along(Moves(g, scope, backs), run)
    ensures before == run[..|run| - 1] && Along(Moves(g, scope, backs), before)
    ensures Moves(g, scope, backs)(run[|run| - 2], run[|run| - 1])
  {
    hide Step;
    before := run[..|run| - 1];
    forall i {:trigger before[i]} | 0 <= i < |before| - 1 ensures Moves(g, scope, backs)(before[i], before[i + 1]) {
      assert Moves(g, scope, backs)(run[i], run[i + 1]);
    }
    assert Moves(g, scope, backs)(run[|run| - 2], run[|run| - 1]);
  }

  lemma {:induction false} AllSettled(g: Graph, scope: set<nat>, backs: set<Id>, run: seq<State>, x: Id)
    requires WellFormed(g) && Followed(g, scope, backs, x) && |run| > 0 && run[0] == START && Along(Moves(g, scope, backs), run)
    ensures Settled(g, run[|run| - 1], x)
  {
    hide WellFormed, Followed, Step;
    if |run| > 1 {
      var before := ShorterRun(g, scope, backs, run);
      AllSettled(g, scope, backs, before, x);
      var u :| Step(g, scope, backs, run[|run| - 2], u, run[|run| - 1]);
      hide Settled;
      SettledStep(g, scope, backs, run[|run| - 2], u, run[|run| - 1], x);
    }
  }

  lemma ReachedSettled(g: Graph, scope: set<nat>, backs: set<Id>, s: State, x: Id)
    requires WellFormed(g) && Followed(g, scope, backs, x) && Reachable(g, scope, backs, s)
    ensures Settled(g, s, x)
  {
    hide WellFormed, Followed, Settled;
    var run :| PathTo(Moves(g, scope, backs), run, START, s);
    AllSettled(g, scope, backs, run, x);
  }

  lemma ReachedAddresses(g: Graph, scope: set<nat>, backs: set<Id>, s: State)
    requires WellFormed(g) && Reachable(g, scope, backs, s)
    ensures AddressesRight(g, s)
  {
    hide WellFormed, AddressesRight;
    var run :| PathTo(Moves(g, scope, backs), run, START, s);
    AllAddressesRight(g, scope, backs, run);
  }

  /**
    * No run gives away an allocation judged not to escape, stores it outside local slots, or gives away or stores the address of
    * a slot it is stored in, unless a tracked value is stored into itself or a call hands it back.
    */
  lemma StaysIn(g: Graph, scope: set<nat>, backs: set<Id>, s: State, x: Id)
    requires WellFormed(g) && x < |g.insts| && g.insts[x].Source? && !Escapes(g, scope, x) && !SelfStored(g, x) && !HandedBack(g, backs, x)
    requires Reachable(g, scope, backs, s)
    ensures Safe(g, s, x)
  {
    hide WellFormed, Escapes, SelfStored, HandedBack, SpilledTo;
    ReachedSettled(g, scope, backs, s, x);
    assert forall o {:trigger (o, x) in s.mem} :: (o, x) in s.mem ==> Kept(g, o);
  }

  lemma NothingGoes(g: Graph, scope: set<nat>, backs: set<Id>, s: State, x: Id, u: Id)
    requires WellFormed(g) && Followed(g, scope, backs, x) && Settled(g, s, x)
    ensures !LetsGo(g, scope, s, x, u)
  {
    if LetsGo(g, scope, s, x, u) {
      var v :| v in Operands(g.insts[u]) && v in s.vals
               && ((s.vals[v] == x && LetsValueGo(g, scope, v, u))
                   || (s.vals[v] < |g.insts| && g.insts[s.vals[v]].Alloca? && (s.vals[v], x) in s.mem && TakesAddress(g.insts[u], v)));
      if s.vals[v] == x && LetsValueGo(g, scope, v, u) {
        HolderOfX(g, scope, backs, x, v, u);
        if g.insts[u].Store? { BaseExactly(g, Base(g, g.insts[u].dest), g.insts[u].dest); }
      } else {
        HolderUse(g, s, v, u);
      }
    }
  }

  // ---------------------------------------------------------------- judged to escape

  lemma Move(g: Graph, scope: set<nat>, backs: set<Id>, s: State, u: Id, s': State)
    requires Reachable(g, scope, backs, s) && Step(g, scope, backs, s, u, s')
    ensures Reachable(g, scope, backs, s')
  {
    hide Step;
    assert Moves(g, scope, backs)(s, s');
    ClosureStep(Moves(g, scope, backs), START, s, s');
  }

  /** A run after which v holds x. */
  ghost predicate Holding(g: Graph, scope: set<nat>, backs: set<Id>, s: State, x: Id, v: Id) {
    Reachable(g, scope, backs, s) && v in s.vals && s.vals[v] == x
  }

  lemma Start(g: Graph, scope: set<nat>, backs: set<Id>, x: Id) returns (s: State)
    requires x < |g.insts| && g.insts[x].Source?
    ensures Holding(g, scope, backs, s, x, x)
  {
    ClosureSelf(Moves(g, scope, backs), START);
    s := Set(START, x, x);
    Move(g, scope, backs, START, x, s);
  }

  lemma NotAnAddress(g: Graph, scope: set<nat>, backs: set<Id>, s: State, x: Id, v: Id, d: Id)
    requires WellFormed(g) && x < |g.insts| && g.insts[x].Source? && Holding(g, scope, backs, s, x, v)
    requires d < |g.insts| && g.insts[Base(g, d)].Alloca?
    ensures v != d
  {
    hide WellFormed, Reachable;
    ReachedAddresses(g, scope, backs, s);
  }

  lemma BaseBelow(g: Graph, d: Id)
    requires WellFormed(g) && d < |g.insts|
    ensures (g.insts[d].Gep? ==> g.insts[d].base < d) && (g.insts[d].Cast? ==> g.insts[d].source < d)
  {}

  /** The address of a slot can be computed without losing x. */
  lemma {:induction false} AddressRun(g: Graph, scope: set<nat>, backs: set<Id>, s: State, x: Id, v: Id, d: Id) returns (s': State)
    requires WellFormed(g) && x < |g.insts| && g.insts[x].Source? && Holding(g, scope, backs, s, x, v)
    requires d < |g.insts| && g.insts[Base(g, d)].Alloca?
    ensures Holding(g, scope, backs, s', x, v) && d in s'.vals && s'.vals[d] == Base(g, d)
    decreases d
  {
    BaseBelow(g, d);
    hide WellFormed, Reachable;
    match g.insts[d]
    case Gep(b, true) =>
      var t := AddressRun(g, scope, backs, s, x, v, b);
      s' := Set(t, d, t.vals[b]);
      NotAnAddress(g, scope, backs, t, x, v, d);
      Move(g, scope, backs, t, d, s');
    case Cast(b) =>
      var t := AddressRun(g, scope, backs, s, x, v, b);
      s' := Set(t, d, t.vals[b]);
      NotAnAddress(g, scope, backs, t, x, v, d);
      Move(g, scope, backs, t, d, s');
    case _ =>
      s' := Set(s, d, d);
      NotAnAddress(g, scope, backs, s, x, v, d);
      Move(g, scope, backs, s, d, s');
  }

  /** A value stored in a slot is there after some run. */
  lemma SpillRun(g: Graph, scope: set<nat>, backs: set<Id>, s: State, x: Id, v: Id, u: Id, slot: Id) returns (s': State)
    requires WellFormed(g) && x < |g.insts| && g.insts[x].Source? && Holding(g, scope, backs, s, x, v) && Spills(g, v, u, slot)
    ensures Reachable(g, scope, backs, s') && (slot, x) in s'.mem
  {
    hide Reachable;
    var d := g.insts[u].dest;
    assert v in Operands(g.insts[u]);
    hide WellFormed;
    var t := AddressRun(g, scope, backs, s, x, v, d);
    s' := t.(mem := t.mem + {(slot, x)});
    assert g.insts[u] == Store(v, d);
    Move(g, scope, backs, t, u, s');
  }

  /** Offsets in a slot can be computed, and what is stored stays stored. */
  lemma {:induction false} OffsetRun(g: Graph, scope: set<nat>, backs: set<Id>, s: State, p: seq<Id>) returns (s': State)
    requires WellFormed(g) && |p| > 0 && Along(SlotSteps(g), p) && p[0] < |g.insts| && g.insts[p[0]].Alloca? && Reachable(g, scope, backs, s)
    ensures Reachable(g, scope, backs, s') && s.mem <= s'.mem && p[|p| - 1] in s'.vals && s'.vals[p[|p| - 1]] == p[0]
  {
    hide Reachable;
    if |p| == 1 {
      s' := Set(s, p[0], p[0]);
      Move(g, scope, backs, s, p[0], s');
    } else {
      var q, u := p[..|p| - 1], p[|p| - 1];
      forall i {:trigger q[i]} | 0 <= i < |q| - 1 ensures SlotSteps(g)(q[i], q[i + 1]) { assert SlotSteps(g)(p[i], p[i + 1]); }
      var t := OffsetRun(g, scope, backs, s, q);
      assert SlotSteps(g)(p[|p| - 2], u);
      assert p[|p| - 2] in Operands(g.insts[u]);
      s' := Set(t, u, p[0]);
      Move(g, scope, backs, t, u, s');
    }
  }

  lemma SlotRun(g: Graph, scope: set<nat>, backs: set<Id>, s: State, slot: Id, a: Id) returns (s': State)
    requires WellFormed(g) && slot < |g.insts| && g.insts[slot].Alloca? && InSlot(g, slot, a) && Reachable(g, scope, backs, s)
    ensures Reachable(g, scope, backs, s') && s.mem <= s'.mem && a in s'.vals && s'.vals[a] == slot
  {
    hide WellFormed, Reachable;
    var p :| PathTo(SlotSteps(g), p, slot, a);
    s' := OffsetRun(g, scope, backs, s, p);
  }

  /** Where the walk goes from a value that holds x, x goes in some run. */
  lemma TrackRun(g: Graph, scope: set<nat>, backs: set<Id>, s: State, x: Id, v: Id, w: Id) returns (s': State)
    requires WellFormed(g) && x < |g.insts| && g.insts[x].Source? && Holding(g, scope, backs, s, x, v) && Tracks(g, v, w)
    ensures Holding(g, scope, backs, s', x, w)
  {
    hide Reachable, InSlot;
    var u: Id :| TracksVia(g, v, u, w);
    if Uses(g, v, u) && Forwards(g.insts[u]) && w == u {
      assert v in Operands(g.insts[u]);
      s' := Set(s, u, x);
      assert x in Objects(s, Operands(g.insts[u]));
      Move(g, scope, backs, s, u, s');
    } else {
      var slot: Id :| Spills(g, v, u, slot) && Reload(g, slot, w);
      var a: Id :| InSlot(g, slot, a) && LoadsFrom(g, a, w);
      assert a in Operands(g.insts[w]);
      hide WellFormed;
      var t := SpillRun(g, scope, backs, s, x, v, u, slot);
      t := SlotRun(g, scope, backs, t, slot, a);
      s' := Set(t, w, x);
      Move(g, scope, backs, t, w, s');
    }
  }

  lemma {:induction false} RunAlong(g: Graph, scope: set<nat>, backs: set<Id>, x: Id, p: seq<Id>) returns (s: State)
    requires WellFormed(g) && x < |g.insts| && g.insts[x].Source? && |p| > 0 && p[0] == x && Along(TrackSteps(g), p)
    ensures Holding(g, scope, backs, s, x, p[|p| - 1])
  {
    hide WellFormed, Holding, Tracks;
    if |p| == 1 {
      s := Start(g, scope, backs, x);
    } else {
      var q := p[..|p| - 1];
      forall i {:trigger q[i]} | 0 <= i < |q| - 1 ensures TrackSteps(g)(q[i], q[i + 1]) { assert TrackSteps(g)(p[i], p[i + 1]); }
      var t := RunAlong(g, scope, backs, x, q);
      assert TrackSteps(g)(p[|p| - 2], p[|p| - 1]);
      s := TrackRun(g, scope, backs, t, x, p[|p| - 2], p[|p| - 1]);
    }
  }

  /** Every tracked value holds the allocation in some run. */
  lemma TrackedRun(g: Graph, scope: set<nat>, backs: set<Id>, x: Id, v: Id) returns (s: State)
    requires WellFormed(g) && x < |g.insts| && g.insts[x].Source? && Tracked(g, x, v)
    ensures Holding(g, scope, backs, s, x, v)
  {
    hide WellFormed, Holding;
    var p :| PathTo(TrackSteps(g), p, x, v);
    s := RunAlong(g, scope, backs, x, p);
  }

  /** An allocation judged to escape is let go of in some run, or a slot that holds it is. */
  lemma EscapeIsReal(g: Graph, scope: set<nat>, backs: set<Id>, x: Id) returns (s: State, u: Id)
    requires WellFormed(g) && x < |g.insts| && g.insts[x].Source? && Escapes(g, scope, x)
    ensures Reachable(g, scope, backs, s) && LetsGo(g, scope, s, x, u)
  {
    hide Tracked, InSlot, Reachable;
    var v: Id, w: Id :| Tracked(g, x, v) && Escape(g, scope, v, w);
    assert v in Operands(g.insts[w]);
    s := TrackedRun(g, scope, backs, x, v);
    u := w;
    if g.insts[w].Store? {
      var d := g.insts[w].dest;
      BaseExactly(g, Base(g, d), d);
      if g.insts[Base(g, d)].Alloca? {
        var slot := Base(g, d);
        var a: Id, au: Id :| InSlot(g, slot, a) && LeaksAddress(g, a, au);
        assert a in Operands(g.insts[au]);
        s := SpillRun(g, scope, backs, s, x, v, w, slot);
        s := SlotRun(g, scope, backs, s, slot, a);
        u := au;
      } else {
        forall a ensures !SlotAddress(g, a, d) { BaseExactly(g, a, d); }
      }
    }
  }

  /** The verdict is what the runs do: an allocation escapes exactly if some run lets go of it, or of a slot that holds it. */
  lemma EscapesExactly(g: Graph, scope: set<nat>, backs: set<Id>, x: Id)
    requires WellFormed(g) && x < |g.insts| && g.insts[x].Source? && !SelfStored(g, x) && !HandedBack(g, backs, x)
    ensures Escapes(g, scope, x) <==> exists s, u :: Reachable(g, scope, backs, s) && LetsGo(g, scope, s, x, u)
  {
    hide WellFormed, Escapes, SelfStored, HandedBack, Reachable, LetsGo;
    if Escapes(g, scope, x) {
      var s, u := EscapeIsReal(g, scope, backs, x);
    } else {
      forall s, u | Reachable(g, scope, backs, s) ensures !LetsGo(g, scope, s, x, u) {
        ReachedSettled(g, scope, backs, s, x);
        NothingGoes(g, scope, backs, s, x, u);
      }
    }
  }

  // ---------------------------------------------------------------- frees

  /** Executing f in s frees x. */
  predicate Frees(g: Graph, s: State, x: Id, f: Id) { f < |g.insts| && g.insts[f].Call? && g.insts[f].callee.Free? && x in Objects(s, g.insts[f].args) }

  /** The frees found for an allocation judged not to escape are exactly those that free it in some run. */
  lemma FreesExactly(g: Graph, scope: set<nat>, backs: set<Id>, x: Id, f: Id)
    requires WellFormed(g) && x < |g.insts| && g.insts[x].Source? && !Escapes(g, scope, x) && !SelfStored(g, x) && !HandedBack(g, backs, x)
    ensures FreeOf(g, x, f) <==> exists s :: Reachable(g, scope, backs, s) && Frees(g, s, x, f)
  {
    hide Tracked, Reachable, Escapes, SelfStored, HandedBack;
    if FreeOf(g, x, f) {
      var v: Id :| Tracked(g, x, v) && FreesOperand(g, v, f);
      assert v in Operands(g.insts[f]);
      var s := TrackedRun(g, scope, backs, x, v);
      assert Frees(g, s, x, f);
    }
    if s :| Reachable(g, scope, backs, s) && Frees(g, s, x, f) {
      ReachedSettled(g, scope, backs, s, x);
      var v :| v in g.insts[f].args && v in s.vals && s.vals[v] == x;
      OperandUses(g, v, f);
    }
  }

  // ---------------------------------------------------------------- what the walk misses

  /** A value all of whose users neither pass it on nor let it out does not escape. */
  lemma GoesNowhere(g: Graph, scope: set<nat>, x: Id)
    requires WellFormed(g) && forall u, w {:trigger TracksVia(g, x, u, w)} :: !TracksVia(g, x, u, w)
    requires forall u {:trigger Escape(g, scope, x, u)} :: !Escape(g, scope, x, u)
    ensures !Escapes(g, scope, x)
  {
    hide TracksVia, Escape, WellFormed;
    forall v | Tracked(g, x, v) ensures v == x {
      ClosureInside(TrackSteps(g), x, v, {x});
    }
  }

  /** Allocation 0 is stored into itself, loaded from there and returned. */
  function SelfStore(): (g: Graph)
    ensures WellFormed(g)
  {
    Graph([Source, Store(0, 0), Load(0), Return(2)], [[1, 2], [], [3], []])
  }

  lemma SelfStoreJudged()
    ensures !Escapes(SelfStore(), {}, 0) && SelfStored(SelfStore(), 0)
  {
    var g := SelfStore();
    forall u: Id | Uses(g, 0, u) ensures u == 1 || u == 2 { UserIndex(g, 0, u); }
    hide WellFormed, Reload, SlotLeaks;
    GoesNowhere(g, {}, 0);
    ClosureSelf(TrackSteps(g), 0);
    hide Tracks, TracksVia, Escapes;
    assert Tracked(g, 0, 0) && g.insts[1] == Store(0, 0);
  }

  lemma SelfStoreSteps(s: State, t: State, r: State)
    requires 0 in s.vals && s.vals[0] == 0 && t == s.(mem := s.mem + {(0, 0)}) && r == Set(t, 2, 0)
    ensures Step(SelfStore(), {}, {}, s, 1, t) && Step(SelfStore(), {}, {}, t, 2, r) && LetsGo(SelfStore(), {}, r, 0, 3)
  {
    hide WellFormed;
    assert (0, 0) in t.mem;
    assert 2 in Operands(SelfStore().insts[3]);
  }

  /** The walk takes the store for one into the allocation and does not follow it: judged not to escape, and returned. */
  lemma SelfStoreMissed() returns (r: State)
    ensures !Escapes(SelfStore(), {}, 0) && SelfStored(SelfStore(), 0)
    ensures Reachable(SelfStore(), {}, {}, r) && LetsGo(SelfStore(), {}, r, 0, 3)
  {
    SelfStoreJudged();
    hide WellFormed, Step, Reachable, Escapes, SelfStored, LetsGo;
    var s := Start(SelfStore(), {}, {}, 0);
    var t := s.(mem := s.mem + {(0, 0)});
    r := Set(t, 2, 0);
    hide SelfStore;
    SelfStoreSteps(s, t, r);
    Move(SelfStore(), {}, {}, s, 1, t);
    Move(SelfStore(), {}, {}, t, 2, r);
  }

  /** Allocation 0 goes to a function of the scope, and what that gives is returned. */
  function PassedOn(): (g: Graph)
    ensures WellFormed(g)
  {
    Graph([Source, Call(Direct(5), [0]), Return(1)], [[1], [2], []])
  }

  lemma PassedOnJudged()
    ensures !Escapes(PassedOn(), {5}, 0) && HandedBack(PassedOn(), {1}, 0)
  {
    var g := PassedOn();
    forall u: Id | Uses(g, 0, u) ensures u == 1 { UserIndex(g, 0, u); }
    hide WellFormed, Reload, SlotLeaks;
    GoesNowhere(g, {5}, 0);
    ClosureSelf(TrackSteps(g), 0);
    hide Tracks, TracksVia, Escapes;
    assert Tracked(g, 0, 0) && 0 in g.insts[1].args;
  }

  lemma PassedOnSteps(s: State, t: State)
    requires 0 in s.vals && s.vals[0] == 0 && t == Called(PassedOn(), {5}, s, 1, 0, {})
    ensures Step(PassedOn(), {5}, {1}, s, 1, t) && LetsGo(PassedOn(), {5}, t, 0, 2)
  {
    hide WellFormed;
    assert Calls(s, [0], {1}, 1, 0, {});
    assert 1 in Operands(PassedOn().insts[2]);
  }

  /** The walk trusts functions of the scope: judged not to escape, and returned if the function hands its argument back. */
  lemma PassedOnMissed() returns (t: State)
    ensures !Escapes(PassedOn(), {5}, 0) && HandedBack(PassedOn(), {1}, 0)
    ensures Reachable(PassedOn(), {5}, {1}, t) && LetsGo(PassedOn(), {5}, t, 0, 2)
  {
    PassedOnJudged();
    hide WellFormed, Step, Reachable, Escapes, HandedBack, LetsGo;
    var s := Start(PassedOn(), {5}, {1}, 0);
    t := Called(PassedOn(), {5}, s, 1, 0, {});
    hide PassedOn;
    PassedOnSteps(s, t);
    Move(PassedOn(), {5}, {1}, s, 1, t);
  }
}
