/** Exactly what the escape walk misses: the graphs one or two instructions from which its verdict is wrong. */
module EscapeLimits {
  import opened EscapeRuns
  import opened EscapeWalk
  import opened Paths

  // ---------------------------------------------------------------- one more instruction

  predicate LoadOrReturn(ins: Inst, o: Id) { ins == Load(o) || ins == Return(o) }

  /** The graph with one more instruction, which has the operand o. */
  function Add(g: Graph, ins: Inst, o: Id): (r: Graph)
    requires o < |g.users|
    ensures |r.insts| == |g.insts| + 1 && r.insts[|g.insts|] == ins && forall u :: 0 <= u < |g.insts| ==> r.insts[u] == g.insts[u]
  {
    Graph(g.insts + [ins], g.users[o := g.users[o] + [|g.insts|]] + [[]])
  }

  ghost predicate Addable(g: Graph, ins: Inst, o: Id) { WellFormed(g) && o < |g.insts| && LoadOrReturn(ins, o) }

  lemma {:induction false} UsesAdded(g: Graph, ins: Inst, o: Id, v: Id, u: Id)
    requires Addable(g, ins, o)
    ensures |g.users| == |g.insts|
    ensures Uses(Add(g, ins, o), v, u) <==> Uses(g, v, u) || (u == |g.insts| && v == o)
  {
    var n, a := |g.insts|, Add(g, ins, o);
    if v < n {
      assert a.users[v] == if v == o then g.users[v] + [n] else g.users[v];
      assert n in g.users[v] ==> n < n;
    } else if v == n {
      assert a.users[v] == [];
    }
  }

  lemma {:induction false} AddedWellFormed(g: Graph, ins: Inst, o: Id)
    requires Addable(g, ins, o)
    ensures WellFormed(Add(g, ins, o))
  {
    var n, a := |g.insts|, Add(g, ins, o);
    forall v, u {:trigger u in a.users[v]} | 0 <= v < |a.insts| && u in a.users[v] ensures u < |a.insts| && v in Operands(a.insts[u]) {
      if v < n && u in g.users[v] { assert v in Operands(g.insts[u]); }
    }
    forall u, v {:trigger v in Operands(a.insts[u])} | 0 <= u < |a.insts| && v in Operands(a.insts[u]) ensures v < |a.insts| && u in a.users[v] {
      if u < n { assert v in Operands(g.insts[u]); }
    }
    forall u {:trigger a.insts[u]} | 0 <= u < |a.insts|
      ensures (a.insts[u].Gep? ==> a.insts[u].base < u) && (a.insts[u].Cast? ==> a.insts[u].source < u)
    {
      if u < n { assert a.insts[u] == g.insts[u]; }
    }
  }

  lemma {:induction false} BaseAdded(g: Graph, ins: Inst, o: Id, p: Id)
    requires Addable(g, ins, o) && WellFormed(Add(g, ins, o)) && p < |g.insts|
    ensures Base(Add(g, ins, o), p) == Base(g, p)
    decreases p
  {
    BaseBelow(g, p);
    hide WellFormed, Add;
    match g.insts[p]
    case Gep(b, true) => BaseAdded(g, ins, o, b);
    case Cast(b) => BaseAdded(g, ins, o, b);
    case _ =>
  }

  // ---------------------------------------------------------------- slots

  lemma {:induction false} InSlotAdded(g: Graph, ins: Inst, o: Id, slot: Id, a: Id)
    requires Addable(g, ins, o)
    ensures InSlot(Add(g, ins, o), slot, a) <==> InSlot(g, slot, a)
  {
    var h := Add(g, ins, o);
    forall x: Id, y: Id ensures SlotSteps(h)(x, y) == SlotSteps(g)(x, y) { UsesAdded(g, ins, o, x, y); }
    hide Addable, Add;
    if p :| PathTo(SlotSteps(h), p, slot, a) {
      forall i {:trigger p[i]} | 0 <= i < |p| - 1 ensures SlotSteps(g)(p[i], p[i + 1]) { assert SlotSteps(h)(p[i], p[i + 1]); }
      assert PathTo(SlotSteps(g), p, slot, a);
    }
    if p :| PathTo(SlotSteps(g), p, slot, a) {
      forall i {:trigger p[i]} | 0 <= i < |p| - 1 ensures SlotSteps(h)(p[i], p[i + 1]) { assert SlotSteps(g)(p[i], p[i + 1]); }
      assert PathTo(SlotSteps(h), p, slot, a);
    }
  }

  lemma {:induction false} SlotAdded(g: Graph, ins: Inst, o: Id, slot: Id)
    requires Addable(g, ins, o) && !InSlot(g, slot, o)
    ensures SlotLeaks(Add(g, ins, o), slot) <==> SlotLeaks(g, slot)
    ensures forall ld {:trigger Reload(g, slot, ld)} :: Reload(Add(g, ins, o), slot, ld) <==> Reload(g, slot, ld)
  {
    var h := Add(g, ins, o);
    forall a: Id, u: Id | InSlot(h, slot, a) || InSlot(g, slot, a)
      ensures InSlot(h, slot, a) && InSlot(g, slot, a) && (LeaksAddress(h, a, u) <==> LeaksAddress(g, a, u)) && (LoadsFrom(h, a, u) <==> LoadsFrom(g, a, u))
    {
      InSlotAdded(g, ins, o, slot, a);
      UsesAdded(g, ins, o, a, u);
    }
    hide InSlot, LeaksAddress, LoadsFrom, Addable, Add;
    if SlotLeaks(h, slot) { var a: Id, u: Id :| InSlot(h, slot, a) && LeaksAddress(h, a, u); }
    if SlotLeaks(g, slot) { var a: Id, u: Id :| InSlot(g, slot, a) && LeaksAddress(g, a, u); }
    forall ld {:trigger Reload(g, slot, ld)} ensures Reload(h, slot, ld) <==> Reload(g, slot, ld) {
      if Reload(h, slot, ld) { var a: Id :| InSlot(h, slot, a) && LoadsFrom(h, a, ld); }
      if Reload(g, slot, ld) { var a: Id :| InSlot(g, slot, a) && LoadsFrom(g, a, ld); }
    }
  }

  lemma {:induction false} SpillsAdded(g: Graph, ins: Inst, o: Id, v: Id, u: Id, slot: Id)
    requires Addable(g, ins, o) && WellFormed(Add(g, ins, o))
    ensures Spills(Add(g, ins, o), v, u, slot) <==> Spills(g, v, u, slot)
  {
    UsesAdded(g, ins, o, v, u);
    hide WellFormed, Add;
    if u < |g.insts| && g.insts[u].Store? {
      if Uses(g, v, u) { OperandHere(g, v, u); }
      if g.insts[u].dest < |g.insts| { BaseAdded(g, ins, o, g.insts[u].dest); }
    }
  }

  lemma {:induction false} OperandHere(g: Graph, v: Id, u: Id)
    requires WellFormed(g) && Uses(g, v, u)
    ensures v in Operands(g.insts[u]) && forall w :: w in Operands(g.insts[u]) ==> w < |g.insts|
  {}

  // ---------------------------------------------------------------- what is tracked

  /** No slot that x is spilled to has o among its addresses, and a returned o is not tracked. */
  ghost predicate Aside(g: Graph, ins: Inst, o: Id, x: Id)
    requires WellFormed(g)
  {
    (forall slot {:trigger InSlot(g, slot, o)} :: SpilledTo(g, x, slot) ==> !InSlot(g, slot, o)) && (ins.Return? ==> !Tracked(g, x, o))
  }

  lemma {:induction false} ViaAdded(g: Graph, ins: Inst, o: Id, x: Id, v: Id, u: Id, w: Id)
    requires Addable(g, ins, o) && WellFormed(Add(g, ins, o)) && Aside(g, ins, o, x) && Tracked(g, x, v)
    ensures TracksVia(Add(g, ins, o), v, u, w) <==> TracksVia(g, v, u, w)
  {
    var h := Add(g, ins, o);
    UsesAdded(g, ins, o, v, u);
    forall slot | Spills(g, v, u, slot) ensures Reload(h, slot, w) <==> Reload(g, slot, w) {
      assert SpilledTo(g, x, slot);
      SlotAdded(g, ins, o, slot);
    }
    forall slot ensures Spills(h, v, u, slot) <==> Spills(g, v, u, slot) { SpillsAdded(g, ins, o, v, u, slot); }
    hide Spills, Reload, WellFormed, Tracked, SpilledTo;
  }

  lemma {:induction false} TracksAdded(g: Graph, ins: Inst, o: Id, x: Id, v: Id, w: Id)
    requires Addable(g, ins, o) && WellFormed(Add(g, ins, o)) && Aside(g, ins, o, x) && Tracked(g, x, v)
    ensures Tracks(Add(g, ins, o), v, w) <==> Tracks(g, v, w)
  {
    forall u ensures TracksVia(Add(g, ins, o), v, u, w) <==> TracksVia(g, v, u, w) { ViaAdded(g, ins, o, x, v, u, w); }
    hide TracksVia, WellFormed, Tracked, Aside, Add;
  }

  lemma {:induction false} PathAdded(g: Graph, ins: Inst, o: Id, x: Id, p: seq<Id>)
    requires Addable(g, ins, o) && WellFormed(Add(g, ins, o)) && Aside(g, ins, o, x) && |p| > 0 && p[0] == x && Along(TrackSteps(Add(g, ins, o)), p)
    ensures Tracked(g, x, p[|p| - 1])
  {
    var h := Add(g, ins, o);
    hide Tracks, WellFormed, Aside, Add;
    if |p| == 1 {
      ClosureSelf(TrackSteps(g), x);
    } else {
      var q := p[..|p| - 1];
      forall i {:trigger q[i]} | 0 <= i < |q| - 1 ensures TrackSteps(h)(q[i], q[i + 1]) { assert TrackSteps(h)(p[i], p[i + 1]); }
      PathAdded(g, ins, o, x, q);
      assert TrackSteps(h)(p[|p| - 2], p[|p| - 1]);
      TracksAdded(g, ins, o, x, p[|p| - 2], p[|p| - 1]);
      ClosureStep(TrackSteps(g), x, p[|p| - 2], p[|p| - 1]);
    }
  }

  lemma {:induction false} TrackedAdded(g: Graph, ins: Inst, o: Id, x: Id, w: Id)
    requires Addable(g, ins, o) && WellFormed(Add(g, ins, o)) && Aside(g, ins, o, x)
    ensures Tracked(Add(g, ins, o), x, w) <==> Tracked(g, x, w)
  {
    var h := Add(g, ins, o);
    hide Tracks, WellFormed, Aside, Add;
    if p :| PathTo(TrackSteps(h), p, x, w) { PathAdded(g, ins, o, x, p); }
    if p :| PathTo(TrackSteps(g), p, x, w) {
      forall i {:trigger p[i]} | 0 <= i < |p| - 1 ensures TrackSteps(h)(p[i], p[i + 1]) {
        assert TrackSteps(g)(p[i], p[i + 1]);
        PathReaches(TrackSteps(g), p, x, w, i);
        TracksAdded(g, ins, o, x, p[i], p[i + 1]);
      }
      assert PathTo(TrackSteps(h), p, x, w);
    }
  }

  lemma {:induction false} EscapeAdded(g: Graph, scope: set<nat>, ins: Inst, o: Id, x: Id, v: Id, u: Id)
    requires Addable(g, ins, o) && WellFormed(Add(g, ins, o)) && Aside(g, ins, o, x) && Tracked(g, x, v)
    ensures Escape(Add(g, ins, o), scope, v, u) <==> Escape(g, scope, v, u)
  {
    UsesAdded(g, ins, o, v, u);
    if Uses(g, v, u) && g.insts[u].Store? && g.insts[u].dest != v {
      OperandHere(g, v, u);
      var d := g.insts[u].dest;
      assert d in Operands(g.insts[u]);
      BaseAdded(g, ins, o, d);
      if g.insts[Base(g, d)].Alloca? {
        assert Spills(g, v, u, Base(g, d));
        assert SpilledTo(g, x, Base(g, d));
        SlotAdded(g, ins, o, Base(g, d));
      }
    }
    hide WellFormed, SlotLeaks, Tracked, InSlot;
  }

  /** The instruction does not change the verdict, and opens no way past the walk. */
  lemma {:induction false} VerdictAdded(g: Graph, scope: set<nat>, ins: Inst, o: Id, x: Id)
    requires Addable(g, ins, o) && Aside(g, ins, o, x)
    ensures WellFormed(Add(g, ins, o))
    ensures Escapes(Add(g, ins, o), scope, x) <==> Escapes(g, scope, x)
    ensures SelfStored(Add(g, ins, o), x) <==> SelfStored(g, x)
    ensures forall backs: set<Id> :: HandedBack(Add(g, ins, o), backs, x) <==> HandedBack(g, backs, x)
  {
    AddedWellFormed(g, ins, o);
    var h := Add(g, ins, o);
    forall v ensures Tracked(h, x, v) <==> Tracked(g, x, v) { TrackedAdded(g, ins, o, x, v); }
    forall v, u | Tracked(g, x, v) ensures Escape(h, scope, v, u) <==> Escape(g, scope, v, u) { EscapeAdded(g, scope, ins, o, x, v, u); }
    hide WellFormed, Tracked, Escape, Aside;
    HolesAdded(g, ins, o, x);
  }

  lemma {:induction false} HolesAdded(g: Graph, ins: Inst, o: Id, x: Id)
    requires Addable(g, ins, o) && WellFormed(Add(g, ins, o)) && forall v :: Tracked(Add(g, ins, o), x, v) <==> Tracked(g, x, v)
    ensures SelfStored(Add(g, ins, o), x) <==> SelfStored(g, x)
    ensures forall backs: set<Id> :: HandedBack(Add(g, ins, o), backs, x) <==> HandedBack(g, backs, x)
  {
    assert o < |g.users|;
    hide WellFormed, Tracked;
    SelfStoredAdded(g, ins, o, x);
    hide SelfStored;
    forall backs: set<Id> ensures HandedBack(Add(g, ins, o), backs, x) <==> HandedBack(g, backs, x) { HandedBackAdded(g, ins, o, x, backs); }
  }

  lemma {:induction false} SelfStoredAdded(g: Graph, ins: Inst, o: Id, x: Id)
    requires Addable(g, ins, o) && WellFormed(Add(g, ins, o)) && forall v :: Tracked(Add(g, ins, o), x, v) <==> Tracked(g, x, v)
    ensures SelfStored(Add(g, ins, o), x) <==> SelfStored(g, x)
  {
    var h := Add(g, ins, o);
    hide WellFormed, Tracked, Add;
    if SelfStored(h, x) {
      var v: Id, u: Id :| Tracked(h, x, v) && u < |h.insts| && h.insts[u] == Store(v, v);
      assert u < |g.insts| && g.insts[u] == Store(v, v);
    }
    if SelfStored(g, x) {
      var v: Id, u: Id :| Tracked(g, x, v) && u < |g.insts| && g.insts[u] == Store(v, v);
      assert h.insts[u] == Store(v, v);
    }
  }

  lemma {:induction false} HandedBackAdded(g: Graph, ins: Inst, o: Id, x: Id, backs: set<Id>)
    requires Addable(g, ins, o) && WellFormed(Add(g, ins, o)) && forall v :: Tracked(Add(g, ins, o), x, v) <==> Tracked(g, x, v)
    ensures HandedBack(Add(g, ins, o), backs, x) <==> HandedBack(g, backs, x)
  {
    var h := Add(g, ins, o);
    hide WellFormed, Tracked, Add;
    if HandedBack(h, backs, x) {
      var v: Id, u: Id :| Tracked(h, x, v) && u in backs && u < |h.insts| && h.insts[u].Call? && v in h.insts[u].args;
      assert u < |g.insts| && g.insts[u] == h.insts[u];
    }
    if HandedBack(g, backs, x) {
      var v: Id, u: Id :| Tracked(g, x, v) && u in backs && u < |g.insts| && g.insts[u].Call? && v in g.insts[u].args;
      assert h.insts[u] == g.insts[u];
    }
  }

  // ---------------------------------------------------------------- what tracked values and addresses are

  lemma {:induction false} LastTrack(g: Graph, x: Id, v: Id) returns (w: Id)
    requires WellFormed(g) && Tracked(g, x, v) && v != x
    ensures Tracked(g, x, w) && Tracks(g, w, v)
  {
    hide WellFormed, Tracks;
    var p :| PathTo(TrackSteps(g), p, x, v);
    w := p[|p| - 2];
    PathReaches(TrackSteps(g), p, x, v, |p| - 2);
    assert TrackSteps(g)(p[|p| - 2], p[|p| - 1]);
  }

  lemma {:induction false} TrackedKind(g: Graph, x: Id, v: Id)
    requires WellFormed(g) && x < |g.insts| && Tracked(g, x, v)
    ensures v < |g.insts| && (v == x || Forwards(g.insts[v]) || g.insts[v].Load?)
  {
    if v != x {
      var w := LastTrack(g, x, v);
      hide InSlot, Tracked;
    }
  }

  lemma {:induction false} TrackedOffset(g: Graph, x: Id, b: Id, v: Id)
    requires WellFormed(g) && x < |g.insts| && g.insts[x].Source? && Tracked(g, x, v) && SlotOffset(g, b, v)
    ensures Tracked(g, x, b)
  {
    var w := LastTrack(g, x, v);
    hide InSlot, Tracked;
    var u: Id :| TracksVia(g, w, u, v);
    OperandHere(g, b, v);
    if Uses(g, w, v) { OperandHere(g, w, v); }
  }

  lemma {:induction false} NoAddressAlong(g: Graph, x: Id, p: seq<Id>)
    requires WellFormed(g) && x < |g.insts| && g.insts[x].Source? && |p| > 0 && Along(SlotSteps(g), p) && p[0] < |g.insts| && g.insts[p[0]].Alloca?
    ensures !Tracked(g, x, p[|p| - 1])
  {
    hide WellFormed, Tracked;
    if Tracked(g, x, p[|p| - 1]) {
      if |p| == 1 {
        TrackedKind(g, x, p[0]);
      } else {
        var q := p[..|p| - 1];
        forall i {:trigger q[i]} | 0 <= i < |q| - 1 ensures SlotSteps(g)(q[i], q[i + 1]) { assert SlotSteps(g)(p[i], p[i + 1]); }
        NoAddressAlong(g, x, q);
        assert SlotSteps(g)(p[|p| - 2], p[|p| - 1]);
        TrackedOffset(g, x, p[|p| - 2], p[|p| - 1]);
      }
    }
  }

  /** A tracked value is not the address of a slot. */
  lemma {:induction false} NoAddress(g: Graph, x: Id, slot: Id, v: Id)
    requires WellFormed(g) && x < |g.insts| && g.insts[x].Source? && Tracked(g, x, v) && SpilledTo(g, x, slot)
    ensures !InSlot(g, slot, v)
  {
    SpilledAlloca(g, x, slot);
    hide WellFormed, Tracked, SpilledTo;
    if p :| PathTo(SlotSteps(g), p, slot, v) { NoAddressAlong(g, x, p); }
  }

  lemma {:induction false} SpilledAlloca(g: Graph, x: Id, slot: Id)
    requires WellFormed(g) && SpilledTo(g, x, slot)
    ensures slot < |g.insts| && g.insts[slot].Alloca?
  {
    hide Tracked;
  }

  lemma {:induction false} InSlotKind(g: Graph, slot: Id, a: Id)
    requires InSlot(g, slot, a)
    ensures a == slot || (a < |g.insts| && g.insts[a].Gep?)
  {
    var p :| PathTo(SlotSteps(g), p, slot, a);
    if |p| > 1 { assert SlotSteps(g)(p[|p| - 2], p[|p| - 1]); }
  }

  /** A load or a call is not the address of a slot either. */
  lemma {:induction false} NotAnOffset(g: Graph, x: Id, o: Id)
    requires WellFormed(g) && o < |g.insts| && (g.insts[o].Load? || g.insts[o].Call?)
    ensures forall slot {:trigger InSlot(g, slot, o)} :: SpilledTo(g, x, slot) ==> !InSlot(g, slot, o)
  {
    forall slot {:trigger InSlot(g, slot, o)} | SpilledTo(g, x, slot) ensures !InSlot(g, slot, o) {
      SpilledAlloca(g, x, slot);
      if InSlot(g, slot, o) { InSlotKind(g, slot, o); }
    }
  }

  // ---------------------------------------------------------------- stored into itself

  /** The verdict is not what the runs do. */
  ghost predicate Wrong(g: Graph, scope: set<nat>, backs: set<Id>, x: Id)
    requires WellFormed(g)
  {
    !(Escapes(g, scope, x) <==> exists s, u :: Reachable(g, scope, backs, s) && LetsGo(g, scope, s, x, u))
  }

  /** The graph that also loads through v and returns what it gets. */
  function WithReload(g: Graph, v: Id): Graph
    requires v < |g.users| == |g.insts|
  {
    Add(Add(g, Load(v), v), Return(|g.insts|), |g.insts|)
  }

  lemma {:induction false} ReloadJudged(g: Graph, scope: set<nat>, x: Id, v: Id)
    requires WellFormed(g) && x < |g.insts| && g.insts[x].Source? && Tracked(g, x, v) && v < |g.insts|
    ensures WellFormed(WithReload(g, v)) && (Escapes(WithReload(g, v), scope, x) <==> Escapes(g, scope, x))
    ensures SelfStored(WithReload(g, v), x) <==> SelfStored(g, x)
    ensures Tracked(WithReload(g, v), x, v)
  {
    var n, g1 := |g.insts|, Add(g, Load(v), v);
    forall slot {:trigger InSlot(g, slot, v)} | SpilledTo(g, x, slot) ensures !InSlot(g, slot, v) { NoAddress(g, x, slot, v); }
    assert Addable(g, Load(v), v) && Aside(g, Load(v), v, x);
    VerdictAdded(g, scope, Load(v), v, x);
    TrackedAdded(g, Load(v), v, x, v);
    TrackedAdded(g, Load(v), v, x, n);
    if Tracked(g, x, n) { TrackedKind(g, x, n); }
    NotAnOffset(g1, x, n);
    hide WellFormed, Tracked, SpilledTo, InSlot, Escapes, SelfStored;
    assert Addable(g1, Return(n), n) && Aside(g1, Return(n), n, x);
    VerdictAdded(g1, scope, Return(n), n, x);
    TrackedAdded(g1, Return(n), n, x, v);
  }

  lemma {:induction false} ReloadGoes(h: Graph, scope: set<nat>, x: Id, v: Id, u: Id, n: Id) returns (r: State)
    requires WellFormed(h) && x < |h.insts| && h.insts[x].Source? && Tracked(h, x, v)
    requires u < |h.insts| && h.insts[u] == Store(v, v) && n + 1 < |h.insts| && h.insts[n] == Load(v) && h.insts[n + 1] == Return(n)
    ensures Reachable(h, scope, {}, r) && LetsGo(h, scope, r, x, n + 1)
  {
    hide WellFormed, Tracked, Reachable;
    var s := TrackedRun(h, scope, {}, x, v);
    var t := s.(mem := s.mem + {(x, x)});
    Move(h, scope, {}, s, u, t);
    r := Set(t, n, x);
    assert (x, x) in t.mem;
    Move(h, scope, {}, t, n, r);
    assert n in Operands(h.insts[n + 1]);
  }

  /**
    * Of an allocation judged not to escape: some tracked value is stored into itself if and only if the verdict is wrong of the
    * graph that also loads through some tracked value and returns what it gets.
    */
  lemma {:induction false} SelfStoredExactly(g: Graph, scope: set<nat>, x: Id)
    requires WellFormed(g) && x < |g.insts| && g.insts[x].Source? && !Escapes(g, scope, x)
    ensures |g.users| == |g.insts| && forall v: Id :: v < |g.insts| && Tracked(g, x, v) ==> WellFormed(WithReload(g, v))
    ensures SelfStored(g, x) <==> exists v: Id :: v < |g.insts| && Tracked(g, x, v) && Wrong(WithReload(g, v), scope, {}, x)
  {
    assert |g.users| == |g.insts|;
    hide WellFormed, Tracked, Escapes, WithReload, Wrong, SelfStored;
    forall v: Id | v < |g.insts| && Tracked(g, x, v) ensures WellFormed(WithReload(g, v)) && (Wrong(WithReload(g, v), scope, {}, x) ==> SelfStored(g, x)) {
      ReloadJudged(g, scope, x, v);
      if !SelfStored(g, x) { RightWithoutSelfStore(g, scope, x, v); }
    }
    if SelfStored(g, x) { var v := SelfStoreWrong(g, scope, x); }
  }

  lemma {:induction false} RightWithoutSelfStore(g: Graph, scope: set<nat>, x: Id, v: Id)
    requires WellFormed(g) && x < |g.insts| == |g.users| && g.insts[x].Source? && Tracked(g, x, v) && v < |g.insts| && !SelfStored(g, x)
    ensures WellFormed(WithReload(g, v)) && !Wrong(WithReload(g, v), scope, {}, x)
  {
    ReloadJudged(g, scope, x, v);
    SourceKept(g, x, v);
    hide Wrong, WellFormed, Tracked, Escapes, WithReload, SelfStored;
    NeverHandedBack(WithReload(g, v), x);
    hide HandedBack;
    RightWithout(WithReload(g, v), scope, {}, x);
  }

  lemma {:induction false} SelfStoreWrong(g: Graph, scope: set<nat>, x: Id) returns (v: Id)
    requires WellFormed(g) && x < |g.insts| == |g.users| && g.insts[x].Source? && !Escapes(g, scope, x) && SelfStored(g, x)
    ensures v < |g.insts| && Tracked(g, x, v) && WellFormed(WithReload(g, v)) && Wrong(WithReload(g, v), scope, {}, x)
  {
    hide WellFormed, Tracked, Escapes, WithReload;
    var w: Id, u: Id :| Tracked(g, x, w) && u < |g.insts| && g.insts[u] == Store(w, w);
    v := w;
    OperandUses(g, v, u);
    hide SelfStored;
    ReloadJudged(g, scope, x, v);
    SourceKept(g, x, v);
    ReloadLast(g, v, u);
    var r := ReloadGoes(WithReload(g, v), scope, x, v, u, |g.insts|);
  }

  lemma {:induction false} SourceKept(g: Graph, x: Id, v: Id)
    requires x < |g.insts| == |g.users| && g.insts[x].Source? && v < |g.insts|
    ensures x < |WithReload(g, v).insts| && WithReload(g, v).insts[x].Source?
  {}

  lemma {:induction false} ReloadLast(g: Graph, v: Id, u: Id)
    requires u < |g.insts| == |g.users| && v < |g.insts|
    ensures
      var h, n := WithReload(g, v), |g.insts|;
      n + 1 < |h.insts| && h.insts[n] == Load(v) && h.insts[n + 1] == Return(n) && h.insts[u] == g.insts[u]
  {}

  lemma {:induction false} NeverHandedBack(g: Graph, x: Id)
    requires WellFormed(g)
    ensures !HandedBack(g, {}, x)
  {}

  lemma {:induction false} RightWithout(g: Graph, scope: set<nat>, backs: set<Id>, x: Id)
    requires WellFormed(g) && x < |g.insts| && g.insts[x].Source? && !SelfStored(g, x) && !HandedBack(g, backs, x)
    ensures !Wrong(g, scope, backs, x)
  {
    EscapesExactly(g, scope, backs, x);
  }

  // ---------------------------------------------------------------- handed back

  lemma {:induction false} ReturnJudged(g: Graph, scope: set<nat>, backs: set<Id>, x: Id, u: Id)
    requires WellFormed(g) && x < |g.insts| && g.insts[x].Source? && u < |g.insts| && g.insts[u].Call?
    ensures |g.users| == |g.insts| && WellFormed(Add(g, Return(u), u)) && (Escapes(Add(g, Return(u), u), scope, x) <==> Escapes(g, scope, x))
    ensures SelfStored(Add(g, Return(u), u), x) <==> SelfStored(g, x)
    ensures HandedBack(Add(g, Return(u), u), backs, x) <==> HandedBack(g, backs, x)
    ensures forall v :: Tracked(Add(g, Return(u), u), x, v) <==> Tracked(g, x, v)
  {
    assert |g.users| == |g.insts|;
    if Tracked(g, x, u) { TrackedKind(g, x, u); }
    NotAnOffset(g, x, u);
    hide WellFormed, Tracked, SpilledTo, InSlot, Escapes, SelfStored, HandedBack;
    assert Addable(g, Return(u), u) && Aside(g, Return(u), u, x);
    VerdictAdded(g, scope, Return(u), u, x);
    forall v ensures Tracked(Add(g, Return(u), u), x, v) <==> Tracked(g, x, v) { TrackedAdded(g, Return(u), u, x, v); }
  }

  lemma {:induction false} ReturnGoes(h: Graph, scope: set<nat>, backs: set<Id>, x: Id, v: Id, u: Id, n: Id) returns (r: State)
    requires WellFormed(h) && x < |h.insts| && h.insts[x].Source? && Tracked(h, x, v)
    requires u < |h.insts| && u in backs && h.insts[u].Call? && v in h.insts[u].args && n < |h.insts| && h.insts[n] == Return(u)
    ensures Reachable(h, scope, backs, r) && LetsGo(h, scope, r, x, n)
  {
    hide WellFormed, Tracked, Reachable;
    var s := TrackedRun(h, scope, backs, x, v);
    assert x in Objects(s, h.insts[u].args);
    assert Calls(s, h.insts[u].args, backs, u, x, {});
    r := Called(h, scope, s, u, x, {});
    Move(h, scope, backs, s, u, r);
    assert u in Operands(h.insts[n]);
  }

  /**
    * Of an allocation judged not to escape and not stored into itself: a call that may hand an argument back gets a tracked one if
    * and only if the verdict is wrong of the graph that also returns what some such call gives.
    */
  lemma {:induction false} HandedBackExactly(g: Graph, scope: set<nat>, backs: set<Id>, x: Id)
    requires WellFormed(g) && x < |g.insts| && g.insts[x].Source? && !Escapes(g, scope, x) && !SelfStored(g, x)
    ensures |g.users| == |g.insts| && forall u: Id :: u < |g.insts| && g.insts[u].Call? ==> WellFormed(Add(g, Return(u), u))
    ensures HandedBack(g, backs, x) <==>
              exists u: Id :: u in backs && u < |g.insts| && g.insts[u].Call? && Wrong(Add(g, Return(u), u), scope, backs, x)
  {
    assert |g.users| == |g.insts|;
    hide WellFormed, Tracked, Escapes, Add, SelfStored;
    forall u: Id | u < |g.insts| && g.insts[u].Call?
      ensures WellFormed(Add(g, Return(u), u)) && (Wrong(Add(g, Return(u), u), scope, backs, x) ==> HandedBack(g, backs, x))
    {
      ReturnJudged(g, scope, backs, x, u);
      if !HandedBack(g, backs, x) { RightWithout(Add(g, Return(u), u), scope, backs, x); }
    }
    if HandedBack(g, backs, x) {
      var v: Id, u: Id :| Tracked(g, x, v) && u in backs && u < |g.insts| && g.insts[u].Call? && v in g.insts[u].args;
      ReturnJudged(g, scope, backs, x, u);
      var r := ReturnGoes(Add(g, Return(u), u), scope, backs, x, v, u, |g.insts|);
      assert Wrong(Add(g, Return(u), u), scope, backs, x);
    }
  }
}
