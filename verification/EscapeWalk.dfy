/** The escape walk over an allocation's def-use graph, through local slots it is spilled to. */
module EscapeWalk {
  import opened Paths
  import opened Sequences

  type Id = nat

  datatype Callee = Indirect | Free | Intrinsic | Direct(callee: nat)

  /** An instruction by what it does with pointers; `Source` has no pointer operand, `OtherUse` is any other instruction. */
  datatype Inst =
    | Source
    | Alloca
    | Gep(base: Id, inBounds: bool)
    | Cast(source: Id)
    | Phi(incoming: seq<Id>)
    | Select(arms: seq<Id>)
    | Load(addr: Id)
    | Store(stored: Id, dest: Id)
    | Call(callee: Callee, args: seq<Id>)
    | Return(value: Id)
    | OtherUse(uses: seq<Id>)

  /** The users of a value may be listed in any order. */
  datatype Graph = Graph(insts: seq<Inst>, users: seq<seq<Id>>)

  function Operands(i: Inst): seq<Id> {
    match i
    case Source => []
    case Alloca => []
    case Gep(b, _) => [b]
    case Cast(s) => [s]
    case Phi(vs) => vs
    case Select(vs) => vs
    case Load(a) => [a]
    case Store(v, d) => [v, d]
    case Call(_, vs) => vs
    case Return(v) => [v]
    case OtherUse(vs) => vs
  }

  ghost predicate WellFormed(g: Graph) {
    && |g.users| == |g.insts|
    && (forall v, u {:trigger u in g.users[v]} :: 0 <= v < |g.insts| && u in g.users[v] ==> u < |g.insts| && v in Operands(g.insts[u]))
    && (forall u, v {:trigger v in Operands(g.insts[u])} :: 0 <= u < |g.insts| && v in Operands(g.insts[u]) ==> v < |g.insts| && u in g.users[v])
    && (forall u {:trigger g.insts[u]} :: 0 <= u < |g.insts| ==>
          (g.insts[u].Gep? ==> g.insts[u].base < u) && (g.insts[u].Cast? ==> g.insts[u].source < u))
  }

  predicate Uses(g: Graph, v: Id, u: Id) { v < |g.users| && u < |g.insts| && u in g.users[v] }

  /** The address with its in-bounds offsets and casts stripped. */
  function Base(g: Graph, p: Id): (b: Id)
    requires WellFormed(g) && p < |g.insts|
    ensures b <= p
  {
    match g.insts[p]
    case Gep(b, true) => Base(g, b)
    case Cast(s) => Base(g, s)
    case _ => p
  }

  // ---------------------------------------------------------------- slots

  predicate SlotOffset(g: Graph, av: Id, au: Id) { Uses(g, av, au) && g.insts[au].Gep? }

  ghost function SlotSteps(g: Graph): (Id, Id) -> bool { (av: Id, au: Id) => SlotOffset(g, av, au) }

  /** av is the slot or an address computed from it. */
  ghost predicate InSlot(g: Graph, slot: Id, av: Id) { Closure(SlotSteps(g), slot, av) }

  /** au lets the address av out: it is neither a load, nor an offset, nor a store into it. */
  predicate LeaksAddress(g: Graph, av: Id, au: Id) {
    && Uses(g, av, au)
    && !g.insts[au].Load? && !g.insts[au].Gep?
    && (g.insts[au].Store? ==> g.insts[au].stored == av)
  }

  ghost predicate SlotLeaks(g: Graph, slot: Id) { exists av, au :: InSlot(g, slot, av) && LeaksAddress(g, av, au) }

  predicate LoadsFrom(g: Graph, av: Id, ld: Id) { Uses(g, av, ld) && g.insts[ld].Load? }

  /** ld reloads what was spilled to the slot. */
  ghost predicate Reload(g: Graph, slot: Id, ld: Id) { exists av :: InSlot(g, slot, av) && LoadsFrom(g, av, ld) }

  // ---------------------------------------------------------------- the tracked graph

  predicate Forwards(i: Inst) { i.Gep? || i.Cast? || i.Phi? || i.Select? }

  /** s stores v into a local slot. */
  predicate Spills(g: Graph, v: Id, s: Id, slot: Id)
    requires WellFormed(g)
  {
    && Uses(g, v, s) && g.insts[s].Store? && g.insts[s].dest != v && g.insts[s].dest < |g.insts|
    && Base(g, g.insts[s].dest) == slot && g.insts[slot].Alloca?
  }

  /** The walk goes from v to w by way of v's user u. */
  ghost predicate TracksVia(g: Graph, v: Id, u: Id, w: Id)
    requires WellFormed(g)
  {
    || (Uses(g, v, u) && Forwards(g.insts[u]) && w == u)
    || exists slot :: Spills(g, v, u, slot) && Reload(g, slot, w)
  }

  ghost predicate Tracks(g: Graph, v: Id, w: Id)
    requires WellFormed(g)
  {
    exists u :: TracksVia(g, v, u, w)
  }

  ghost function TrackSteps(g: Graph): (Id, Id) -> bool
    requires WellFormed(g)
  {
    (v: Id, w: Id) => Tracks(g, v, w)
  }

  /** w may hold the allocation x, as far as the walk follows it. */
  ghost predicate Tracked(g: Graph, x: Id, w: Id)
    requires WellFormed(g)
  {
    Closure(TrackSteps(g), x, w)
  }

  /** u lets v out of the scope. */
  ghost predicate Escape(g: Graph, scope: set<nat>, v: Id, u: Id)
    requires WellFormed(g)
  {
    && Uses(g, v, u)
    && match g.insts[u]
       case Store(_, dest) => dest != v && dest < |g.insts| && (!g.insts[Base(g, dest)].Alloca? || SlotLeaks(g, Base(g, dest)))
       case Call(Indirect, _) => true
       case Call(Direct(f), _) => f !in scope
       case Call(_, _) => false
       case _ => !Forwards(g.insts[u]) && !g.insts[u].Load?
  }

  ghost predicate Escapes(g: Graph, scope: set<nat>, x: Id)
    requires WellFormed(g)
  {
    exists v, u :: Tracked(g, x, v) && Escape(g, scope, v, u)
  }

  predicate FreesOperand(g: Graph, v: Id, f: Id) { Uses(g, v, f) && g.insts[f].Call? && g.insts[f].callee.Free? }

  /** f frees a value the walk tracks from x. */
  ghost predicate FreeOf(g: Graph, x: Id, f: Id)
    requires WellFormed(g)
  {
    exists v :: Tracked(g, x, v) && FreesOperand(g, v, f)
  }

  // ---------------------------------------------------------------- walking a slot

  function Ids(n: nat): (s: set<Id>)
    ensures forall v: Id :: v in s <==> v < n
  {
    if n == 0 then {} else Ids(n - 1) + {n - 1}
  }

  /** The inner worklist's state: addresses visited, addresses to visit, reloads found. */
  datatype SlotWalk = SlotWalk(visited: set<Id>, work: seq<Id>, loads: seq<Id>)

  ghost predicate SlotUserDone(g: Graph, w: SlotWalk, av: Id, au: Id) {
    && !LeaksAddress(g, av, au)
    && (SlotOffset(g, av, au) ==> au in w.visited || au in w.work)
    && (LoadsFrom(g, av, au) ==> au in w.loads)
  }

  ghost predicate SlotKnown(g: Graph, slot: Id, v: Id) { v < |g.insts| && InSlot(g, slot, v) }

  /** Everything seen belongs to the slot, every load found reloads it, and the users of visited addresses are dealt with: of av the first k, of others all. */
  ghost predicate SlotSound(g: Graph, slot: Id, w: SlotWalk, av: Id, k: nat) {
    && (slot in w.visited || slot in w.work)
    && (forall v {:trigger SlotKnown(g, slot, v)} :: v in w.visited || v in w.work ==> SlotKnown(g, slot, v))
    && (forall ld {:trigger Reload(g, slot, ld)} :: ld in w.loads ==> Reload(g, slot, ld))
    && (forall v, j {:trigger g.users[v][j]} :: v in w.visited && 0 <= v < |g.users| && 0 <= j < |g.users[v]| && (v == av ==> j < k) ==>
          SlotUserDone(g, w, v, g.users[v][j]))
  }

  lemma SlotStart(g: Graph, slot: Id)
    requires slot < |g.insts|
    ensures SlotSound(g, slot, SlotWalk({}, [slot], []), slot, 0)
  {
    ClosureSelf(SlotSteps(g), slot);
  }

  /** Popping an address: skipped if visited before, and otherwise its users are now to be looked at. */
  lemma SlotPop(g: Graph, slot: Id, w: SlotWalk, last: Id)
    requires SlotSound(g, slot, w, last, if last < |g.users| then |g.users[last]| else 0) && |w.work| > 0
    ensures
      var av, rest := w.work[|w.work| - 1], w.work[..|w.work| - 1];
      && av < |g.insts|
      && (av in w.visited ==> SlotSound(g, slot, w.(work := rest), last, if last < |g.users| then |g.users[last]| else 0))
      && (av !in w.visited ==> SlotSound(g, slot, SlotWalk(w.visited + {av}, rest, w.loads), av, 0))
  {
    hide InSlot, Reload, LeaksAddress, SlotOffset, LoadsFrom;
    var av, rest := w.work[|w.work| - 1], w.work[..|w.work| - 1];
    assert w.work == rest + [av];
    assert SlotKnown(g, slot, av);
  }

  lemma SlotUser(g: Graph, slot: Id, w: SlotWalk, av: Id, k: nat)
    requires WellFormed(g) && SlotSound(g, slot, w, av, k) && av in w.visited && av < |g.users| && k < |g.users[av]|
    requires !LeaksAddress(g, av, g.users[av][k])
    ensures
      var au := g.users[av][k];
      && au < |g.insts|
      && SlotSound(g, slot, w.(work := if g.insts[au].Gep? then w.work + [au] else w.work,
                               loads := if g.insts[au].Load? then w.loads + [au] else w.loads), av, k + 1)
  {
    UserInRange(g, av, k);
    hide WellFormed, InSlot, LeaksAddress, Reload;
    var au := g.users[av][k];
    var w' := w.(work := if g.insts[au].Gep? then w.work + [au] else w.work,
                 loads := if g.insts[au].Load? then w.loads + [au] else w.loads);
    assert SlotKnown(g, slot, av);
    if g.insts[au].Gep? {
      SlotKnownStep(g, slot, av, au);
    } else if g.insts[au].Load? {
      ReloadHere(g, slot, av, au);
    }
    assert SlotUserDone(g, w', av, au);
    hide SlotOffset, LoadsFrom, SlotKnown, Uses;
    forall v, j {:trigger g.users[v][j]} | v in w'.visited && 0 <= v < |g.users| && 0 <= j < |g.users[v]| && (v == av ==> j < k + 1)
      ensures SlotUserDone(g, w', v, g.users[v][j])
    {
      if v != av || j != k { assert SlotUserDone(g, w, v, g.users[v][j]); }
    }
  }

  lemma ReloadHere(g: Graph, slot: Id, av: Id, ld: Id)
    requires InSlot(g, slot, av) && LoadsFrom(g, av, ld)
    ensures Reload(g, slot, ld)
  {}

  lemma SlotKnownStep(g: Graph, slot: Id, av: Id, au: Id)
    requires SlotKnown(g, slot, av) && SlotOffset(g, av, au)
    ensures SlotKnown(g, slot, au)
  {
    ClosureStep(SlotSteps(g), slot, av, au);
  }

  lemma SlotDone(g: Graph, slot: Id, w: SlotWalk, last: Id)
    requires SlotSound(g, slot, w, last, if last < |g.users| then |g.users[last]| else 0) && w.work == []
    ensures !SlotLeaks(g, slot) && forall ld :: ld in w.loads <==> Reload(g, slot, ld)
  {
    hide Along;
    forall x, y {:trigger SlotSteps(g)(x, y)} | x in w.visited && SlotSteps(g)(x, y) ensures y in w.visited {
      UserIndex(g, x, y);
    }
    forall av | InSlot(g, slot, av) ensures av in w.visited {
      ClosureInside(SlotSteps(g), slot, av, w.visited);
    }
    forall av, au | InSlot(g, slot, av) ensures !LeaksAddress(g, av, au) {
      if Uses(g, av, au) { UserIndex(g, av, au); }
    }
    forall ld | Reload(g, slot, ld) ensures ld in w.loads {
      var av :| InSlot(g, slot, av) && LoadsFrom(g, av, ld);
      UserIndex(g, av, ld);
    }
  }

  lemma UserIndex(g: Graph, v: Id, u: Id)
    requires Uses(g, v, u)
    ensures exists j :: 0 <= j < |g.users[v]| && g.users[v][j] == u
  {}

  lemma UserInRange(g: Graph, v: Id, k: nat)
    requires WellFormed(g) && v < |g.users| && k < |g.users[v]|
    ensures g.users[v][k] < |g.insts| && Uses(g, v, g.users[v][k])
  {
    assert g.users[v][k] in g.users[v];
  }

  lemma SlotLeak(g: Graph, slot: Id, w: SlotWalk, av: Id, k: nat, au: Id)
    requires SlotSound(g, slot, w, av, k) && av in w.visited && LeaksAddress(g, av, au)
    ensures SlotLeaks(g, slot) && forall ld :: ld in w.loads ==> Reload(g, slot, ld)
  {
    assert SlotKnown(g, slot, av);
  }

  /** The worklist after the users of av from k on: reloads and addresses are appended in the order of its uses. */
  function SlotScan(g: Graph, w: SlotWalk, av: Id, k: nat): (r: SlotWalk)
    requires WellFormed(g) && av < |g.users|
    ensures r.visited == w.visited
    decreases |g.users[av]| - k
  {
    if k >= |g.users[av]| then w
    else
      var au := g.users[av][k];
      UserInRange(g, av, k);
      SlotScan(g, w.(work := if g.insts[au].Gep? then w.work + [au] else w.work,
                     loads := if g.insts[au].Load? then w.loads + [au] else w.loads), av, k + 1)
  }

  /** The reloads of a slot whose address stays in, in the order the walk comes upon them. */
  function SlotLoads(g: Graph, w: SlotWalk): seq<Id>
    requires WellFormed(g)
    decreases Ids(|g.insts|) - w.visited, |w.work|
  {
    if w.work == [] then w.loads
    else
      var av, rest := w.work[|w.work| - 1], w.work[..|w.work| - 1];
      if av in w.visited || av >= |g.users| then SlotLoads(g, w.(work := rest))
      else SlotLoads(g, SlotScan(g, SlotWalk(w.visited + {av}, rest, w.loads), av, 0))
  }

  /** The inner worklist over a local slot: whether its address gets out, and otherwise every reload, in the walk's order. */
  method WalkSlot(g: Graph, slot: Id) returns (leaks: bool, loads: seq<Id>)
    requires WellFormed(g) && slot < |g.insts|
    ensures leaks <==> SlotLeaks(g, slot)
    ensures !leaks ==> loads == SlotLoads(g, SlotWalk({}, [slot], []))
    ensures !leaks ==> forall ld :: ld in loads <==> Reload(g, slot, ld)
    ensures leaks ==> forall ld :: ld in loads ==> Reload(g, slot, ld)
  {
    assert |g.users| == |g.insts|;
    hide WellFormed, SlotSound, SlotLeaks, Reload, LeaksAddress;
    ghost var all := SlotLoads(g, SlotWalk({}, [slot], []));
    var work, visited: set<Id> := [slot], {};
    loads := [];
    ghost var last: Id := slot;
    SlotStart(g, slot);
    while |work| > 0
      invariant last < |g.users| && visited <= Ids(|g.insts|)
      invariant SlotSound(g, slot, SlotWalk(visited, work, loads), last, if visited == {} then 0 else |g.users[last]|)
      invariant SlotLoads(g, SlotWalk(visited, work, loads)) == all
      decreases Ids(|g.insts|) - visited, |work|
    {
      SlotFresh(g, slot, SlotWalk(visited, work, loads), last);
      SlotPop(g, slot, SlotWalk(visited, work, loads), last);
      var av := work[|work| - 1];
      work := work[..|work| - 1];
      if av in visited { continue; }
      visited := visited + {av};
      last := av;
      var k := 0;
      while k < |g.users[av]|
        invariant 0 <= k <= |g.users[av]|
        invariant SlotSound(g, slot, SlotWalk(visited, work, loads), av, k)
        invariant SlotLoads(g, SlotScan(g, SlotWalk(visited, work, loads), av, k)) == all
      {
        var au := g.users[av][k];
        UserInRange(g, av, k);
        if LeaksAddress(g, av, au) {
          SlotLeak(g, slot, SlotWalk(visited, work, loads), av, k, au);
          return true, loads;
        }
        SlotUser(g, slot, SlotWalk(visited, work, loads), av, k);
        if g.insts[au].Load? {
          loads := loads + [au];
        } else if g.insts[au].Gep? {
          work := work + [au];
        }
        k := k + 1;
      }
    }
    SlotFresh(g, slot, SlotWalk(visited, work, loads), last);
    SlotDone(g, slot, SlotWalk(visited, work, loads), last);
    return false, loads;
  }

  /** Before anything is visited there is nothing to have dealt with. */
  lemma SlotFresh(g: Graph, slot: Id, w: SlotWalk, last: Id)
    requires last < |g.users| && SlotSound(g, slot, w, last, if w.visited == {} then 0 else |g.users[last]|)
    ensures SlotSound(g, slot, w, last, |g.users[last]|)
  {}

  // ---------------------------------------------------------------- the escape walk

  /** The outer worklist's state: values visited, values to visit, frees found. */
  datatype Walk = Walk(visited: set<Id>, work: seq<Id>, frees: seq<Id>)

  ghost predicate UserDone(g: Graph, scope: set<nat>, w: Walk, v: Id, u: Id)
    requires WellFormed(g)
  {
    && !Escape(g, scope, v, u)
    && (forall x {:trigger TracksVia(g, v, u, x)} :: TracksVia(g, v, u, x) ==> x in w.visited || x in w.work)
    && (FreesOperand(g, v, u) ==> u in w.frees)
  }

  ghost predicate Known(g: Graph, x: Id, v: Id)
    requires WellFormed(g)
  {
    v < |g.insts| && Tracked(g, x, v)
  }

  /** The user that recorded the free f is one already looked at. */
  ghost predicate FreeSeen(g: Graph, w: Walk, last: Id, k: nat, f: Id) {
    exists v, j :: v in w.visited && v < |g.users| && 0 <= j < |g.users[v]| && (v == last ==> j < k) && g.users[v][j] == f && FreesOperand(g, v, f)
  }

  /** All values seen are tracked, all frees found free them, and users are dealt with: the first k of `last`, all of the others visited. */
  ghost predicate Sound(g: Graph, scope: set<nat>, x: Id, w: Walk, last: Id, k: nat)
    requires WellFormed(g)
  {
    && (x in w.visited || x in w.work) && (w.visited == {} ==> w.work == [x])
    && (forall v {:trigger Known(g, x, v)} :: v in w.visited || v in w.work ==> Known(g, x, v))
    && Distinct(w.frees)
    && (forall f {:trigger FreeSeen(g, w, last, k, f)} :: f in w.frees ==> FreeSeen(g, w, last, k, f))
    && (forall v, j {:trigger g.users[v][j]} :: v in w.visited && 0 <= v < |g.users| && 0 <= j < |g.users[v]| && (v == last ==> j < k) ==>
          UserDone(g, scope, w, v, g.users[v][j]))
  }

  lemma WalkStart(g: Graph, scope: set<nat>, x: Id)
    requires WellFormed(g) && x < |g.insts|
    ensures Sound(g, scope, x, Walk({}, [x], []), x, |g.users[x]|)
  {
    ClosureSelf(TrackSteps(g), x);
  }

  /** Popping a value: skipped if visited before, and otherwise its users are now to be looked at. */
  lemma WalkPop(g: Graph, scope: set<nat>, x: Id, w: Walk, last: Id)
    requires WellFormed(g) && last < |g.users| && Sound(g, scope, x, w, last, |g.users[last]|) && |w.work| > 0
    ensures
      var v, rest := w.work[|w.work| - 1], w.work[..|w.work| - 1];
      && v < |g.insts|
      && (v in w.visited ==> Sound(g, scope, x, w.(work := rest), last, |g.users[last]|))
      && (v !in w.visited ==> Sound(g, scope, x, Walk(w.visited + {v}, rest, w.frees), v, 0))
  {
    hide WellFormed, Tracked, TracksVia, Escape, FreesOperand;
    var v, rest := w.work[|w.work| - 1], w.work[..|w.work| - 1];
    assert w.work == rest + [v];
    assert Known(g, x, v);
    if v in w.visited {
      forall f | f in w.frees ensures FreeSeen(g, w.(work := rest), last, |g.users[last]|, f) {
        assert FreeSeen(g, w, last, |g.users[last]|, f);
      }
    } else {
      var w' := Walk(w.visited + {v}, rest, w.frees);
      forall f | f in w.frees ensures FreeSeen(g, w', v, 0, f) {
        assert FreeSeen(g, w, last, |g.users[last]|, f);
        var a, j :| a in w.visited && a < |g.users| && 0 <= j < |g.users[a]| && g.users[a][j] == f && FreesOperand(g, a, f);
        assert a in w'.visited;
      }
    }
  }

  /** Looking at user k of v: what the walk pushes and records settles it. */
  lemma WalkUser(g: Graph, scope: set<nat>, x: Id, w: Walk, v: Id, k: nat, pushed: seq<Id>, freed: bool)
    requires WellFormed(g) && v < |g.users| && k < |g.users[v]| && v in w.visited && Sound(g, scope, x, w, v, k)
    requires !Escape(g, scope, v, g.users[v][k])
    requires forall y {:trigger y in pushed} {:trigger TracksVia(g, v, g.users[v][k], y)} :: y in pushed <==> TracksVia(g, v, g.users[v][k], y)
    requires freed <==> FreesOperand(g, v, g.users[v][k])
    ensures Sound(g, scope, x, Walk(w.visited, w.work + pushed, if freed && g.users[v][k] !in w.frees then w.frees + [g.users[v][k]] else w.frees), v, k + 1)
  {
    hide WellFormed, Tracked, TracksVia, Escape, FreesOperand;
    var u := g.users[v][k];
    var w' := Walk(w.visited, w.work + pushed, if freed && u !in w.frees then w.frees + [u] else w.frees);
    assert Known(g, x, v);
    forall y | y in pushed ensures Known(g, x, y) {
      TracksInRange(g, v, u, y);
      TrackedStep(g, x, v, u, y);
    }
    forall f | f in w'.frees ensures FreeSeen(g, w', v, k + 1, f) {
      if f in w.frees {
        assert FreeSeen(g, w, v, k, f);
      } else {
        assert v in w'.visited && k < k + 1;
      }
    }
    forall a, j {:trigger g.users[a][j]} | a in w'.visited && 0 <= a < |g.users| && 0 <= j < |g.users[a]| && (a == v ==> j < k + 1)
      ensures UserDone(g, scope, w', a, g.users[a][j])
    {
      if a != v || j != k { assert UserDone(g, scope, w, a, g.users[a][j]); }
    }
  }

  lemma TracksInRange(g: Graph, v: Id, u: Id, y: Id)
    requires WellFormed(g) && TracksVia(g, v, u, y)
    ensures y < |g.insts|
  {}

  lemma TrackedStep(g: Graph, x: Id, v: Id, u: Id, y: Id)
    requires WellFormed(g) && Tracked(g, x, v) && TracksVia(g, v, u, y)
    ensures Tracked(g, x, y)
  {
    assert Tracks(g, v, y);
    ClosureStep(TrackSteps(g), x, v, y);
  }

  lemma WalkDone(g: Graph, scope: set<nat>, x: Id, w: Walk, last: Id)
    requires WellFormed(g) && last < |g.users| && Sound(g, scope, x, w, last, |g.users[last]|) && w.work == []
    ensures !Escapes(g, scope, x) && forall f :: f in w.frees <==> FreeOf(g, x, f)
  {
    hide WellFormed, TracksVia, Escape;
    forall a, b {:trigger TrackSteps(g)(a, b)} | a in w.visited && TrackSteps(g)(a, b) ensures b in w.visited {
      var u :| TracksVia(g, a, u, b);
      TracksUses(g, a, u, b);
      UserIndex(g, a, u);
    }
    forall v | Tracked(g, x, v) ensures v in w.visited {
      ClosureInside(TrackSteps(g), x, v, w.visited);
    }
    forall v, u | Tracked(g, x, v) ensures !Escape(g, scope, v, u) {
      EscapeUses(g, scope, v, u);
      if Uses(g, v, u) { UserIndex(g, v, u); }
    }
    forall f | FreeOf(g, x, f) ensures f in w.frees {
      var v :| Tracked(g, x, v) && FreesOperand(g, v, f);
      UserIndex(g, v, f);
    }
    FreesKnown(g, scope, x, w, last, |g.users[last]|);
  }

  lemma TracksUses(g: Graph, v: Id, u: Id, y: Id)
    requires WellFormed(g) && TracksVia(g, v, u, y)
    ensures Uses(g, v, u)
  {}

  lemma EscapeUses(g: Graph, scope: set<nat>, v: Id, u: Id)
    requires WellFormed(g)
    ensures Escape(g, scope, v, u) ==> Uses(g, v, u)
  {}

  lemma FreesKnown(g: Graph, scope: set<nat>, x: Id, w: Walk, last: Id, k: nat)
    requires WellFormed(g) && Sound(g, scope, x, w, last, k)
    ensures forall f :: f in w.frees ==> FreeOf(g, x, f)
  {
    hide WellFormed, Tracked, UserDone;
    forall f | f in w.frees ensures FreeOf(g, x, f) {
      assert FreeSeen(g, w, last, k, f);
      var v, j :| v in w.visited && v < |g.users| && 0 <= j < |g.users[v]| && g.users[v][j] == f && FreesOperand(g, v, f);
      assert Known(g, x, v);
    }
  }

  lemma WalkEscape(g: Graph, scope: set<nat>, x: Id, w: Walk, v: Id, k: nat)
    requires WellFormed(g) && v < |g.users| && k < |g.users[v]| && v in w.visited && Sound(g, scope, x, w, v, k)
    requires Escape(g, scope, v, g.users[v][k])
    ensures Escapes(g, scope, x) && Distinct(w.frees) && forall f :: f in w.frees ==> FreeOf(g, x, f)
  {
    hide WellFormed, Tracked, TracksVia, Escape;
    assert Known(g, x, v);
    FreesKnown(g, scope, x, w, v, k);
  }

  /** Whether a user lets the value out, and otherwise what the walk pushes for it. */
  method Follow(g: Graph, scope: set<nat>, v: Id, u: Id) returns (escapes: bool, pushed: seq<Id>)
    requires WellFormed(g) && Uses(g, v, u)
    ensures escapes <==> Escape(g, scope, v, u)
    ensures !escapes ==> pushed == Pushes(g, v, u)
    ensures !escapes ==> forall y {:trigger y in pushed} {:trigger TracksVia(g, v, u, y)} :: y in pushed <==> TracksVia(g, v, u, y)
  {
    assert v in Operands(g.insts[u]);
    match g.insts[u] {
      case Gep(_, _) => return false, [u];
      case Cast(_) => return false, [u];
      case Phi(_) => return false, [u];
      case Select(_) => return false, [u];
      case Load(_) => return false, [];
      case Store(_, dest) =>
        if dest == v { return false, []; }
        assert dest in Operands(g.insts[u]);
        var slot := Base(g, dest);
        if g.insts[slot].Alloca? {
          escapes, pushed := WalkSlot(g, slot);
          StoreTracks(g, v, u, slot);
        } else {
          return true, [];
        }
      case Call(callee, _) =>
        match callee {
          case Indirect => return true, [];
          case Free => return false, [];
          case Intrinsic => return false, [];
          case Direct(f) => return f !in scope, [];
        }
      case _ => return true, [];
    }
  }

  lemma StoreTracks(g: Graph, v: Id, u: Id, slot: Id)
    requires WellFormed(g) && Uses(g, v, u) && g.insts[u].Store? && g.insts[u].dest != v && g.insts[u].dest < |g.insts|
    requires slot == Base(g, g.insts[u].dest) && g.insts[slot].Alloca?
    ensures Escape(g, {}, v, u) <==> SlotLeaks(g, slot)
    ensures forall y {:trigger TracksVia(g, v, u, y)} :: TracksVia(g, v, u, y) <==> Reload(g, slot, y)
  {
    hide Reload, SlotLeaks;
    assert Spills(g, v, u, slot);
  }

  // ---------------------------------------------------------------- what the walk sees before it returns

  /** What the walk pushes for a user that does not escape. */
  function Pushes(g: Graph, v: Id, u: Id): seq<Id>
    requires WellFormed(g) && Uses(g, v, u)
  {
    match g.insts[u]
    case Gep(_, _) => [u]
    case Cast(_) => [u]
    case Phi(_) => [u]
    case Select(_) => [u]
    case Store(_, dest) =>
      if dest == v || dest >= |g.insts| || !g.insts[Base(g, dest)].Alloca? then [] else SlotLoads(g, SlotWalk({}, [Base(g, dest)], []))
    case _ => []
  }

  function WithFree(frees: seq<Id>, u: Id): seq<Id> { if u in frees then frees else frees + [u] }

  /** The users of v from k on, up to the first at which v escapes. */
  ghost function Scan(g: Graph, scope: set<nat>, w: Walk, v: Id, k: nat): (r: (bool, Walk))
    requires WellFormed(g) && v < |g.users|
    ensures r.1.visited == w.visited
    decreases |g.users[v]| - k
  {
    if k >= |g.users[v]| then (false, w)
    else
      var u := g.users[v][k];
      UserInRange(g, v, k);
      if Escape(g, scope, v, u) then (true, w)
      else Scan(g, scope, Walk(w.visited, w.work + Pushes(g, v, u), if FreesOperand(g, v, u) then WithFree(w.frees, u) else w.frees), v, k + 1)
  }

  /** The frees recorded by the time the walk returns: at the first escape in its order, or when nothing is left to visit. */
  ghost function FreesUntil(g: Graph, scope: set<nat>, w: Walk): seq<Id>
    requires WellFormed(g)
    decreases Ids(|g.insts|) - w.visited, |w.work|
  {
    if w.work == [] then w.frees
    else
      var v, rest := w.work[|w.work| - 1], w.work[..|w.work| - 1];
      if v in w.visited || v >= |g.users| then FreesUntil(g, scope, w.(work := rest))
      else Resume(g, scope, Scan(g, scope, Walk(w.visited + {v}, rest, w.frees), v, 0))
  }

  ghost function Resume(g: Graph, scope: set<nat>, r: (bool, Walk)): seq<Id>
    requires WellFormed(g)
    decreases Ids(|g.insts|) - r.1.visited, |r.1.work| + 1
  {
    if r.0 then r.1.frees else FreesUntil(g, scope, r.1)
  }

  ghost function SeenFrees(g: Graph, scope: set<nat>, x: Id): seq<Id>
    requires WellFormed(g)
  {
    FreesUntil(g, scope, Walk({}, [x], []))
  }

  lemma {:induction false} ScanSees(g: Graph, scope: set<nat>, w: Walk, v: Id, k: nat, n: nat)
    requires WellFormed(g) && v < |g.users| && k <= n <= |g.users[v]| && forall j :: k <= j < n ==> !Escape(g, scope, v, g.users[v][j])
    ensures
      var frees := Scan(g, scope, w, v, k).1.frees;
      && (forall f :: f in w.frees ==> f in frees)
      && forall j :: k <= j < n && FreesOperand(g, v, g.users[v][j]) ==> g.users[v][j] in frees
    decreases |g.users[v]| - k
  {
    hide WellFormed, Escape, FreesOperand, Pushes;
    if k < |g.users[v]| {
      var u := g.users[v][k];
      UserInRange(g, v, k);
      if !Escape(g, scope, v, u) {
        var frees := if FreesOperand(g, v, u) then WithFree(w.frees, u) else w.frees;
        ScanSees(g, scope, Walk(w.visited, w.work + Pushes(g, v, u), frees), v, k + 1, if n > k then n else k + 1);
      }
    }
  }

  lemma {:induction false} UntilKeeps(g: Graph, scope: set<nat>, w: Walk)
    requires WellFormed(g)
    ensures forall f :: f in w.frees ==> f in FreesUntil(g, scope, w)
    decreases Ids(|g.insts|) - w.visited, |w.work|
  {
    hide WellFormed, Scan;
    if w.work != [] {
      var v, rest := w.work[|w.work| - 1], w.work[..|w.work| - 1];
      if v in w.visited || v >= |g.users| {
        UntilKeeps(g, scope, w.(work := rest));
      } else {
        SameSize(g);
        ScanSees(g, scope, Walk(w.visited + {v}, rest, w.frees), v, 0, 0);
        var r := Scan(g, scope, Walk(w.visited + {v}, rest, w.frees), v, 0);
        if !r.0 { UntilKeeps(g, scope, r.1); }
      }
    }
  }

  lemma SameSize(g: Graph)
    requires WellFormed(g)
    ensures |g.users| == |g.insts|
  {}

  lemma SeenFirst(g: Graph, scope: set<nat>, x: Id)
    requires WellFormed(g) && x < |g.users|
    ensures SeenFrees(g, scope, x) == Resume(g, scope, Scan(g, scope, Walk({x}, [], []), x, 0))
  {
    hide WellFormed, Scan;
    var w := Walk({}, [x], []);
    assert w.work[..|w.work| - 1] == [];
    assert {} + {x} == {x};
    assert Walk(w.visited + {x}, w.work[..|w.work| - 1], w.frees) == Walk({x}, [], []);
    assert FreesUntil(g, scope, w) == Resume(g, scope, Scan(g, scope, Walk({x}, [], []), x, 0));
  }

  /** Every free among the allocation's own users before the first at which it escapes is seen. */
  lemma FirstFreesSeen(g: Graph, scope: set<nat>, x: Id, n: nat)
    requires WellFormed(g) && x < |g.insts| && n <= |g.users[x]| && forall j :: 0 <= j < n ==> !Escape(g, scope, x, g.users[x][j])
    ensures forall j :: 0 <= j < n && FreesOperand(g, x, g.users[x][j]) ==> g.users[x][j] in SeenFrees(g, scope, x)
  {
    SameSize(g);
    hide WellFormed, Escape, FreesOperand, Scan;
    SeenFirst(g, scope, x);
    ScanSees(g, scope, Walk({x}, [], []), x, 0, n);
    hide SeenFrees, FreesUntil;
    var r := Scan(g, scope, Walk({x}, [], []), x, 0);
    if !r.0 { UntilKeeps(g, scope, r.1); }
  }

  /**
    * Whether the allocation x escapes, and the frees seen until the walk returned. For one that does not escape these are
    * exactly the frees of tracked values; for one that does they are some of them.
    */
  method EscapesScope(g: Graph, scope: set<nat>, x: Id) returns (escapes: bool, frees: seq<Id>)
    requires WellFormed(g) && x < |g.insts|
    ensures escapes <==> Escapes(g, scope, x)
    ensures Distinct(frees) && forall f :: f in frees ==> FreeOf(g, x, f)
    ensures !escapes ==> forall f :: f in frees <==> FreeOf(g, x, f)
    ensures frees == SeenFrees(g, scope, x)
  {
    assert |g.users| == |g.insts|;
    hide WellFormed, Sound, Escapes, FreeOf, TracksVia, Escape, Distinct;
    var visited: set<Id>, work := {}, [x];
    frees := [];
    ghost var last: Id := x;
    WalkStart(g, scope, x);
    while |work| > 0
      invariant last < |g.users| && visited <= Ids(|g.insts|) && Sound(g, scope, x, Walk(visited, work, frees), last, |g.users[last]|)
      invariant FreesUntil(g, scope, Walk(visited, work, frees)) == SeenFrees(g, scope, x)
      decreases Ids(|g.insts|) - visited, |work|
    {
      WalkPop(g, scope, x, Walk(visited, work, frees), last);
      var v := work[|work| - 1];
      work := work[..|work| - 1];
      if v in visited { continue; }
      visited := visited + {v};
      last := v;
      var k := 0;
      while k < |g.users[v]|
        invariant 0 <= k <= |g.users[v]|
        invariant Sound(g, scope, x, Walk(visited, work, frees), v, k)
        invariant Resume(g, scope, Scan(g, scope, Walk(visited, work, frees), v, k)) == SeenFrees(g, scope, x)
      {
        var u := g.users[v][k];
        UserInRange(g, v, k);
        var leaves, pushed := Follow(g, scope, v, u);
        if leaves {
          WalkEscape(g, scope, x, Walk(visited, work, frees), v, k);
          return true, frees;
        }
        var freed := g.insts[u].Call? && g.insts[u].callee.Free?;
        WalkUser(g, scope, x, Walk(visited, work, frees), v, k, pushed, freed);
        work := work + pushed;
        if freed && u !in frees { frees := frees + [u]; }
        k := k + 1;
      }
    }
    WalkDone(g, scope, x, Walk(visited, work, frees), last);
    SoundFrees(g, scope, x, Walk(visited, work, frees), last, |g.users[last]|);
    return false, frees;
  }

  lemma SoundFrees(g: Graph, scope: set<nat>, x: Id, w: Walk, last: Id, k: nat)
    requires WellFormed(g) && Sound(g, scope, x, w, last, k)
    ensures Distinct(w.frees)
  {}
}
