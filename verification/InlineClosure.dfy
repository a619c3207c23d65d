/**
 The forced-inline closure of a pipeline functor: the explicit-stack search that collects its
 transitive callees and marks call cycles, the upgrade to alwaysinline that must not force a
 recursive inline, and the whole pass, whose first step may.
 */
module InlineClosure {
  import opened Sequences

  type Fn = nat

  /**
   The call graph: each function with a body, and the functions its call instructions name, in
   instruction order. A callee that is not a key has no body and is skipped; indirect calls name
   no function and do not appear.
   */
  type CallGraph = map<Fn, seq<Fn>>

  predicate Calls(g: CallGraph, u: Fn, v: Fn) { u in g && v in g && v in g[u] }

  predicate IsPath(g: CallGraph, p: seq<Fn>) { forall i :: 0 <= i < |p| - 1 ==> Calls(g, p[i], p[i + 1]) }

  predicate PathFrom(g: CallGraph, p: seq<Fn>, u: Fn, v: Fn) {
    |p| >= 2 && p[0] == u && p[|p| - 1] == v && IsPath(g, p)
  }

  /** v can be reached from u by one or more calls. */
  ghost predicate Reaches(g: CallGraph, u: Fn, v: Fn) { exists p :: PathFrom(g, p, u, v) }

  predicate IsCycle(g: CallGraph, p: seq<Fn>) { |p| >= 2 && p[0] == p[|p| - 1] && IsPath(g, p) }

  lemma CallReaches(g: CallGraph, u: Fn, v: Fn)
    requires Calls(g, u, v)
    ensures Reaches(g, u, v)
  {
    assert PathFrom(g, [u, v], u, v);
  }

  lemma ReachesCall(g: CallGraph, u: Fn, v: Fn, w: Fn)
    requires Reaches(g, u, v) && Calls(g, v, w)
    ensures Reaches(g, u, w)
  {
    var p :| PathFrom(g, p, u, v);
    assert PathFrom(g, p + [w], u, w);
  }

  // ---------------------------------------------------------------- what the search leaves behind

  datatype Entry = Entry(f: Fn, post: bool)

  /** Each call of a finished function goes to one that finished before it, or has both ends marked recursive. */
  ghost predicate Ordered(g: CallGraph, finish: map<Fn, nat>, recursive: set<Fn>, visited: set<Fn>) {
    forall u, v {:trigger Calls(g, u, v)} :: u in finish && Calls(g, u, v) ==>
      (v in finish && finish[v] < finish[u]) || (u in recursive && v in recursive && v in visited)
  }

  /** Along a path no call of which has both ends marked, finishing times go down. */
  lemma {:induction false} FinishDecreases(g: CallGraph, finish: map<Fn, nat>, recursive: set<Fn>, p: seq<Fn>)
    requires Ordered(g, finish, recursive, finish.Keys) && IsPath(g, p) && |p| >= 1 && p[0] in finish
    requires forall i :: 0 <= i < |p| - 1 ==> p[i] !in recursive || p[i + 1] !in recursive
    ensures p[|p| - 1] in finish && finish[p[|p| - 1]] <= finish[p[0]]
    ensures |p| >= 2 ==> finish[p[|p| - 1]] < finish[p[0]]
  {
    if |p| >= 2 {
      assert Calls(g, p[0], p[1]);
      var q := p[1..];
      forall i | 0 <= i < |q| - 1 ensures Calls(g, q[i], q[i + 1]) && (q[i] !in recursive || q[i + 1] !in recursive) {
        assert Calls(g, p[i + 1], p[i + 2]);
      }
      FinishDecreases(g, finish, recursive, q);
    }
  }

  /** Some call on p has both its ends marked. */
  ghost predicate Broken(p: seq<Fn>, recursive: set<Fn>) {
    exists i :: 0 <= i < |p| - 1 && p[i] in recursive && p[i + 1] in recursive
  }

  lemma CyclesBroken(g: CallGraph, finish: map<Fn, nat>, recursive: set<Fn>, p: seq<Fn>)
    requires Ordered(g, finish, recursive, finish.Keys) && IsCycle(g, p) && p[0] in finish
    ensures Broken(p, recursive)
  {
    if !Broken(p, recursive) {
      FinishDecreases(g, finish, recursive, p);
    }
  }

  /** What has finished is closed under calls, so it contains everything reachable from it. */
  lemma {:induction false} ReachableFinished(g: CallGraph, finish: map<Fn, nat>, recursive: set<Fn>, p: seq<Fn>)
    requires Ordered(g, finish, recursive, finish.Keys) && IsPath(g, p) && |p| >= 1 && p[0] in finish
    ensures p[|p| - 1] in finish
  {
    if |p| >= 2 {
      assert Calls(g, p[0], p[1]);
      forall i | 0 <= i < |p[1..]| - 1 ensures Calls(g, p[1..][i], p[1..][i + 1]) {
        assert Calls(g, p[i + 1], p[i + 2]);
      }
      ReachableFinished(g, finish, recursive, p[1..]);
    }
  }

  // ---------------------------------------------------------------- the search's invariant

  /** A call from u, whose post marker is at position p, is dealt with: marked, finished, or waiting above the marker. */
  ghost predicate Handled(stack: seq<Entry>, finish: map<Fn, nat>, recursive: set<Fn>, visited: set<Fn>, u: Fn, v: Fn, p: nat) {
    || v in finish
    || (u in recursive && v in recursive && v in visited)
    || exists q :: p < q < |stack| && stack[q].f == v
  }

  /** The stack's post markers are the functions on the current path, each once, at the positions recorded in pos. */
  ghost predicate MarkersOk(stack: seq<Entry>, pos: map<Fn, nat>) {
    && (forall f {:trigger pos[f]} :: f in pos ==> pos[f] < |stack| && stack[pos[f]] == Entry(f, true))
    && (forall i :: 0 <= i < |stack| && stack[i].post ==> stack[i].f in pos)
    && (forall i, j :: 0 <= i < j < |stack| && stack[i].post ==> stack[j].f != stack[i].f)
  }

  /** Whatever is above a function on the path is reachable from it. */
  ghost predicate AboveReached(g: CallGraph, stack: seq<Entry>) {
    forall i, j :: 0 <= i < j < |stack| && stack[i].post ==> Reaches(g, stack[i].f, stack[j].f)
  }

  /** A call the search has looked at: all those of the functions on the path, but only the first k of `scanning`. */
  predicate Scanned(g: CallGraph, u: Fn, v: Fn, scanning: Fn, k: nat) {
    Calls(g, u, v) && (u == scanning ==> k <= |g[u]| && v in g[u][..k])
  }

  ghost predicate AllHandled(g: CallGraph, stack: seq<Entry>, finish: map<Fn, nat>, recursive: set<Fn>, visited: set<Fn>,
                             scanning: Fn, k: nat) {
    forall p, v {:trigger Scanned(g, stack[p].f, v, scanning, k)} ::
      0 <= p < |stack| && stack[p].post && Scanned(g, stack[p].f, v, scanning, k) ==>
      Handled(stack, finish, recursive, visited, stack[p].f, v, p)
  }

  ghost predicate FromRoot(g: CallGraph, root: Fn, f: Fn) { f in g && (f == root || Reaches(g, root, f)) }

  /** Marks made by this search are on cycles reachable from its root. */
  ghost predicate MarksOk(g: CallGraph, root: Fn, recursive0: set<Fn>, recursive: set<Fn>) {
    recursive0 <= recursive && forall f :: f in recursive && f !in recursive0 ==> Reaches(g, f, f) && FromRoot(g, root, f)
  }

  /** The callees so far: every visited or waiting function but the root, and nothing the root does not reach. */
  ghost predicate CalleesOk(g: CallGraph, root: Fn, stack: seq<Entry>, visited: set<Fn>, callees0: set<Fn>, callees: set<Fn>) {
    && callees0 <= callees
    && (forall f :: f in visited && f != root ==> f in callees)
    && (forall i :: 0 <= i < |stack| && stack[i].f != root ==> stack[i].f in callees)
    && (forall f :: f in callees && f !in callees0 ==> f != root && f in g && Reaches(g, root, f))
  }

  ghost predicate RootOk(g: CallGraph, root: Fn, stack: seq<Entry>, visited: set<Fn>) {
    && (forall i :: 0 <= i < |stack| ==> FromRoot(g, root, stack[i].f))
    && (forall f :: f in visited ==> FromRoot(g, root, f))
    && (if root in visited then stack != [] ==> stack[0] == Entry(root, true) else stack == [Entry(root, false)])
  }

  /** The part of the invariant that makes finishing times an order. */
  ghost predicate SearchOk(g: CallGraph, stack: seq<Entry>, visited: set<Fn>, pos: map<Fn, nat>, finish: map<Fn, nat>,
                           recursive: set<Fn>, scanning: Fn, k: nat) {
    && visited == pos.Keys + finish.Keys && pos.Keys !! finish.Keys
    && (forall f :: f in finish ==> finish[f] < |finish|)
    && MarkersOk(stack, pos)
    && AllHandled(g, stack, finish, recursive, visited, scanning, k) && Ordered(g, finish, recursive, visited)
  }

  /** Taking the top entry off leaves every call dealt with, once the entry's function has finished. */
  lemma DropHandled(g: CallGraph, stack: seq<Entry>, finish: map<Fn, nat>, finish': map<Fn, nat>, recursive: set<Fn>, visited: set<Fn>,
                    root: Fn, k: nat)
    requires AllHandled(g, stack, finish, recursive, visited, root, k)
    requires stack != [] && finish.Keys <= finish'.Keys && stack[|stack| - 1].f in finish'
    ensures AllHandled(g, stack[..|stack| - 1], finish', recursive, visited, root, k)
  {
    var rest := stack[..|stack| - 1];
    forall p, v | 0 <= p < |rest| && rest[p].post && Scanned(g, rest[p].f, v, root, k)
      ensures Handled(rest, finish', recursive, visited, rest[p].f, v, p) {
      assert Handled(stack, finish, recursive, visited, stack[p].f, v, p);
      if q :| p < q < |stack| && stack[q].f == v {
        assert q < |rest| ==> rest[q].f == v;
      }
    }
  }

  /** A finishing function finishes after every function it calls on an unmarked call. */
  lemma FinishOrdered(g: CallGraph, stack: seq<Entry>, finish: map<Fn, nat>, recursive: set<Fn>, visited: set<Fn>, root: Fn)
    requires root in g && AllHandled(g, stack, finish, recursive, visited, root, |g[root]|)
    requires Ordered(g, finish, recursive, visited) && forall f :: f in finish ==> finish[f] < |finish|
    requires stack != [] && stack[|stack| - 1].post && stack[|stack| - 1].f !in finish
    ensures Ordered(g, finish[stack[|stack| - 1].f := |finish|], recursive, visited)
  {
    var top := |stack| - 1;
    var f := stack[top].f;
    forall v | Calls(g, f, v) ensures v in finish || (f in recursive && v in recursive && v in visited) {
      assert Scanned(g, stack[top].f, v, root, |g[root]|);
      assert Handled(stack, finish, recursive, visited, f, v, top);
    }
  }

  lemma PopMarker(stack: seq<Entry>, pos: map<Fn, nat>)
    requires MarkersOk(stack, pos) && stack != [] && stack[|stack| - 1].post
    ensures stack[|stack| - 1].f in pos && MarkersOk(stack[..|stack| - 1], pos - {stack[|stack| - 1].f})
  {
    var f := stack[|stack| - 1].f;
    assert pos[f] == |stack| - 1;
    forall h | h in pos && h != f ensures pos[h] < |stack| - 1 {
      assert stack[pos[h]] == Entry(h, true);
    }
  }

  lemma PopEntry(stack: seq<Entry>, pos: map<Fn, nat>)
    requires MarkersOk(stack, pos) && stack != [] && !stack[|stack| - 1].post
    ensures stack[|stack| - 1].f !in pos && MarkersOk(stack[..|stack| - 1], pos)
  {
    var f := stack[|stack| - 1].f;
    var i := if f in pos then pos[f] else 0;
  }

  lemma FinishCount(finish: map<Fn, nat>, f: Fn)
    requires f !in finish && forall h :: h in finish ==> finish[h] < |finish|
    ensures forall h {:trigger finish[f := |finish|][h]} :: h in finish[f := |finish|] ==> finish[f := |finish|][h] < |finish[f := |finish|]|
  {
    assert |finish[f := |finish|]| == |finish| + 1;
  }

  /** A post marker comes off the stack. */
  lemma PostVisit(g: CallGraph, root: Fn, stack: seq<Entry>, visited: set<Fn>, pos: map<Fn, nat>, finish: map<Fn, nat>,
                  recursive: set<Fn>)
    requires root in g && SearchOk(g, stack, visited, pos, finish, recursive, root, |g[root]|)
    requires stack != [] && stack[|stack| - 1].post
    ensures var f := stack[|stack| - 1].f;
            SearchOk(g, stack[..|stack| - 1], visited, pos - {f}, finish[f := |finish|], recursive, root, |g[root]|)
  {
    hide AllHandled, Ordered, MarkersOk;
    var f := stack[|stack| - 1].f;
    PopMarker(stack, pos);
    FinishCount(finish, f);
    FinishOrdered(g, stack, finish, recursive, visited, root);
    DropHandled(g, stack, finish, finish[f := |finish|], recursive, visited, root, |g[root]|);
    assert visited == (pos - {f}).Keys + finish[f := |finish|].Keys;
  }

  /** A function already visited is skipped: it has finished, for a function on the path has no entry above its marker. */
  lemma SkipVisited(g: CallGraph, root: Fn, stack: seq<Entry>, visited: set<Fn>, pos: map<Fn, nat>, finish: map<Fn, nat>,
                    recursive: set<Fn>)
    requires root in g && SearchOk(g, stack, visited, pos, finish, recursive, root, |g[root]|)
    requires stack != [] && !stack[|stack| - 1].post && stack[|stack| - 1].f in visited
    ensures SearchOk(g, stack[..|stack| - 1], visited, pos, finish, recursive, root, |g[root]|)
  {
    hide AllHandled, Ordered, MarkersOk;
    PopEntry(stack, pos);
    DropHandled(g, stack, finish, finish, recursive, visited, root, |g[root]|);
  }

  lemma PushMarker(stack: seq<Entry>, pos: map<Fn, nat>)
    requires MarkersOk(stack, pos) && stack != [] && !stack[|stack| - 1].post && stack[|stack| - 1].f !in pos
    ensures MarkersOk(stack[..|stack| - 1] + [Entry(stack[|stack| - 1].f, true)], pos[stack[|stack| - 1].f := |stack| - 1])
  {
    var f := stack[|stack| - 1].f;
    var stack', pos' := stack[..|stack| - 1] + [Entry(f, true)], pos[f := |stack| - 1];
    forall h | h in pos' ensures pos'[h] < |stack'| && stack'[pos'[h]] == Entry(h, true) {
      if h != f {
        assert stack[pos[h]] == Entry(h, true);
      }
    }
  }

  lemma VisitHandled(g: CallGraph, root: Fn, stack: seq<Entry>, visited: set<Fn>, pos: map<Fn, nat>, finish: map<Fn, nat>,
                     recursive: set<Fn>)
    requires root in g && MarkersOk(stack, pos) && AllHandled(g, stack, finish, recursive, visited, root, |g[root]|)
    requires stack != [] && !stack[|stack| - 1].post && stack[|stack| - 1].f !in pos
    ensures var f := stack[|stack| - 1].f;
            AllHandled(g, stack[..|stack| - 1] + [Entry(f, true)], finish, recursive, visited + {f}, f, 0)
  {
    var top := |stack| - 1;
    var f := stack[top].f;
    var stack' := stack[..top] + [Entry(f, true)];
    forall p, v | 0 <= p < |stack'| && stack'[p].post && Scanned(g, stack'[p].f, v, f, 0)
      ensures Handled(stack', finish, recursive, visited + {f}, stack'[p].f, v, p) {
      assert p < top && stack'[p] == stack[p];
      assert Scanned(g, stack[p].f, v, root, |g[root]|);
      assert Handled(stack, finish, recursive, visited, stack[p].f, v, p);
      if q :| p < q < |stack| && stack[q].f == v {
        assert stack'[q].f == v;
      }
    }
  }

  /** A function is visited: its entry becomes its post marker, and none of its calls has been looked at. */
  lemma Visit(g: CallGraph, root: Fn, stack: seq<Entry>, visited: set<Fn>, pos: map<Fn, nat>, finish: map<Fn, nat>,
              recursive: set<Fn>)
    requires root in g && SearchOk(g, stack, visited, pos, finish, recursive, root, |g[root]|)
    requires stack != [] && !stack[|stack| - 1].post && stack[|stack| - 1].f !in visited
    ensures var f := stack[|stack| - 1].f;
            SearchOk(g, stack[..|stack| - 1] + [Entry(f, true)], visited + {f}, pos[f := |stack| - 1], finish, recursive, f, 0)
  {
    hide AllHandled, MarkersOk;
    var f := stack[|stack| - 1].f;
    PushMarker(stack, pos);
    VisitHandled(g, root, stack, visited, pos, finish, recursive);
    assert Ordered(g, finish, recursive, visited + {f});
    assert visited + {f} == pos[f := |stack| - 1].Keys + finish.Keys;
  }

  /** What scanning one call of f does: marks, or a new entry, or neither. */
  ghost predicate ScanStep(g: CallGraph, stack: seq<Entry>, visited: set<Fn>, finish: map<Fn, nat>, recursive: set<Fn>, f: Fn, k: nat,
                           stack': seq<Entry>, recursive': set<Fn>)
  {
    && f in g && k < |g[f]| && recursive <= recursive'
    && (stack' == stack || (stack' == stack + [Entry(g[f][k], false)] && g[f][k] !in visited))
    && (g[f][k] in g ==> g[f][k] in finish || stack' != stack || (f in recursive' && g[f][k] in recursive' && g[f][k] in visited))
  }

  lemma ScanHandled(g: CallGraph, stack: seq<Entry>, visited: set<Fn>, finish: map<Fn, nat>, recursive: set<Fn>, f: Fn, k: nat,
                    stack': seq<Entry>, recursive': set<Fn>)
    requires AllHandled(g, stack, finish, recursive, visited, f, k)
    requires ScanStep(g, stack, visited, finish, recursive, f, k, stack', recursive')
    ensures AllHandled(g, stack', finish, recursive', visited, f, k + 1)
  {
    var c := g[f][k];
    assert g[f][..k + 1] == g[f][..k] + [c];
    forall p, v | 0 <= p < |stack'| && stack'[p].post && Scanned(g, stack'[p].f, v, f, k + 1)
      ensures Handled(stack', finish, recursive', visited, stack'[p].f, v, p) {
      assert p < |stack| && stack'[p] == stack[p];
      if Scanned(g, stack[p].f, v, f, k) {
        assert Handled(stack, finish, recursive, visited, stack[p].f, v, p);
        if q :| p < q < |stack| && stack[q].f == v {
          assert stack'[q].f == v;
        }
      } else {
        assert v == c && stack[p].f == f;
        assert stack' != stack ==> stack'[|stack|].f == v;
      }
    }
  }

  lemma MoreMarks(g: CallGraph, finish: map<Fn, nat>, recursive: set<Fn>, recursive': set<Fn>, visited: set<Fn>)
    requires Ordered(g, finish, recursive, visited) && recursive <= recursive'
    ensures Ordered(g, finish, recursive', visited)
  {}

  lemma PushEntry(stack: seq<Entry>, pos: map<Fn, nat>, f: Fn)
    requires MarkersOk(stack, pos) && f !in pos
    ensures MarkersOk(stack + [Entry(f, false)], pos)
  {
    var stack' := stack + [Entry(f, false)];
    forall h | h in pos ensures pos[h] < |stack'| && stack'[pos[h]] == Entry(h, true) {
      assert stack[pos[h]] == Entry(h, true);
    }
  }

  /** One call of the function being visited is looked at: it goes to the path and both ends are marked, or its callee waits on top. */
  lemma Scan(g: CallGraph, stack: seq<Entry>, visited: set<Fn>, pos: map<Fn, nat>, finish: map<Fn, nat>,
             recursive: set<Fn>, f: Fn, k: nat, stack': seq<Entry>, recursive': set<Fn>)
    requires SearchOk(g, stack, visited, pos, finish, recursive, f, k)
    requires ScanStep(g, stack, visited, finish, recursive, f, k, stack', recursive')
    ensures SearchOk(g, stack', visited, pos, finish, recursive', f, k + 1)
  {
    hide AllHandled, Ordered, MarkersOk;
    ScanHandled(g, stack, visited, finish, recursive, f, k, stack', recursive');
    MoreMarks(g, finish, recursive, recursive', visited);
    if stack' != stack {
      PushEntry(stack, pos, g[f][k]);
    }
  }

  /** A new entry above the function being visited is reachable from everything on the path. */
  lemma PushReached(g: CallGraph, stack: seq<Entry>, p: nat, v: Fn)
    requires AboveReached(g, stack) && p < |stack| && stack[p].post && Calls(g, stack[p].f, v)
    requires forall i :: p < i < |stack| ==> !stack[i].post
    ensures AboveReached(g, stack + [Entry(v, false)])
  {
    var stack' := stack + [Entry(v, false)];
    forall i, j | 0 <= i < j < |stack'| && stack'[i].post ensures Reaches(g, stack'[i].f, stack'[j].f) {
      if j < |stack| {
        assert Reaches(g, stack[i].f, stack[j].f);
      } else if i < p {
        ReachesCall(g, stack[i].f, stack[p].f, v);
      } else {
        CallReaches(g, stack[p].f, v);
      }
    }
  }

  /** A call back to the path closes a cycle through both its ends. */
  lemma BackCallCycle(g: CallGraph, stack: seq<Entry>, p: nat, q: nat)
    requires AboveReached(g, stack) && q <= p < |stack| && stack[p].post && stack[q].post && Calls(g, stack[p].f, stack[q].f)
    ensures Reaches(g, stack[p].f, stack[p].f) && Reaches(g, stack[q].f, stack[q].f)
  {
    var f, c := stack[p].f, stack[q].f;
    CallReaches(g, f, c);
    if q < p {
      ReachesCall(g, c, f, c);
      var there :| PathFrom(g, there, f, c);
      var back :| PathFrom(g, back, c, f);
      var p' := there + back[1..];
      forall i | 0 <= i < |p'| - 1 ensures Calls(g, p'[i], p'[i + 1]) {
        if i >= |there| - 1 {
          assert Calls(g, back[i - |there| + 1], back[i - |there| + 2]);
        } else {
          assert Calls(g, there[i], there[i + 1]);
        }
      }
      assert PathFrom(g, p', f, f);
    }
  }

  lemma FromRootCall(g: CallGraph, root: Fn, f: Fn, c: Fn)
    requires FromRoot(g, root, f) && Calls(g, f, c)
    ensures FromRoot(g, root, c) && Reaches(g, root, c)
  {
    if f == root { CallReaches(g, f, c); } else { ReachesCall(g, root, f, c); }
  }

  // ---------------------------------------------------------------- the search

  /** The search's variables; pos and finish are where the path's markers are and in what order functions finished. */
  datatype Search = Search(stack: seq<Entry>, visited: set<Fn>, onStack: set<Fn>, callees: set<Fn>, recursive: set<Fn>,
                           pos: map<Fn, nat>, finish: map<Fn, nat>)

  /** What one search starts from. */
  datatype Start = Start(root: Fn, callees: set<Fn>, recursive: set<Fn>)

  /** The whole invariant, while the calls of `scanning` beyond the first k are still to be looked at. */
  ghost predicate Sound(g: CallGraph, a: Start, s: Search, scanning: Fn, k: nat) {
    && a.root in g && s.onStack == s.pos.Keys
    && SearchOk(g, s.stack, s.visited, s.pos, s.finish, s.recursive, scanning, k)
    && RootOk(g, a.root, s.stack, s.visited) && AboveReached(g, s.stack)
    && MarksOk(g, a.root, a.recursive, s.recursive)
    && CalleesOk(g, a.root, s.stack, s.visited, a.callees, s.callees)
  }

  /** Nothing is being scanned: every call of every function on the path has been looked at. */
  ghost predicate Settled(g: CallGraph, a: Start, s: Search) { a.root in g && Sound(g, a, s, a.root, |g[a.root]|) }

  /** f is the function being visited, with its marker the topmost one. */
  predicate Visiting(s: Search, f: Fn) {
    f in s.pos && s.pos[f] < |s.stack| && s.stack[s.pos[f]] == Entry(f, true)
    && forall i :: s.pos[f] < i < |s.stack| ==> !s.stack[i].post
  }

  function Top(s: Search): Entry
    requires s.stack != []
  {
    s.stack[|s.stack| - 1]
  }

  function Pop(s: Search): Search
    requires s.stack != []
  {
    s.(stack := s.stack[..|s.stack| - 1])
  }

  lemma StartSettled(g: CallGraph, a: Start)
    requires a.root in g
    ensures Settled(g, a, Search([Entry(a.root, false)], {}, {}, a.callees, a.recursive, map[], map[]))
  {}

  lemma PostVisitKeeps(g: CallGraph, a: Start, s: Search)
    requires Settled(g, a, s) && s.stack != [] && Top(s).post
    ensures var f := Top(s).f;
            Settled(g, a, Pop(s).(onStack := s.onStack - {f}, pos := s.pos - {f}, finish := s.finish[f := |s.finish|]))
  {
    hide SearchOk, Reaches, FromRoot, MarksOk;
    PostVisit(g, a.root, s.stack, s.visited, s.pos, s.finish, s.recursive);
    hide SearchOk;
  }

  lemma SkipVisitedKeeps(g: CallGraph, a: Start, s: Search)
    requires Settled(g, a, s) && s.stack != [] && !Top(s).post && Top(s).f in s.visited
    ensures Settled(g, a, Pop(s))
  {
    hide SearchOk, Reaches, FromRoot, MarksOk;
    SkipVisited(g, a.root, s.stack, s.visited, s.pos, s.finish, s.recursive);
    hide SearchOk;
  }

  lemma VisitKeeps(g: CallGraph, a: Start, s: Search)
    requires Settled(g, a, s) && s.stack != [] && !Top(s).post && Top(s).f !in s.visited
    ensures var f := Top(s).f;
            var s' := Pop(s).(stack := s.stack[..|s.stack| - 1] + [Entry(f, true)], visited := s.visited + {f},
                              onStack := s.onStack + {f}, pos := s.pos[f := |s.stack| - 1]);
            f in g && Sound(g, a, s', f, 0) && Visiting(s', f)
  {
    hide SearchOk, Reaches, MarksOk;
    Visit(g, a.root, s.stack, s.visited, s.pos, s.finish, s.recursive);
    hide SearchOk;
  }

  /** A call to a function without a body. */
  lemma NoBodyKeeps(g: CallGraph, a: Start, s: Search, f: Fn, k: nat)
    requires Sound(g, a, s, f, k) && Visiting(s, f) && f in g && k < |g[f]| && g[f][k] !in g
    ensures Sound(g, a, s, f, k + 1)
  {
    hide SearchOk, Reaches, FromRoot, MarksOk;
    Scan(g, s.stack, s.visited, s.pos, s.finish, s.recursive, f, k, s.stack, s.recursive);
  }

  /** A call back to the path. */
  lemma BackCallKeeps(g: CallGraph, a: Start, s: Search, f: Fn, k: nat)
    requires Sound(g, a, s, f, k) && Visiting(s, f) && f in g && k < |g[f]| && g[f][k] in g && g[f][k] in s.onStack
    ensures var s' := s.(recursive := s.recursive + {g[f][k], f}); Sound(g, a, s', f, k + 1) && Visiting(s', f)
  {
    hide Reaches, CalleesOk, AllHandled, Ordered;
    var c := g[f][k];
    var p, q := s.pos[f], s.pos[c];
    assert s.stack[q] == Entry(c, true) && s.stack[p] == Entry(f, true);
    assert Calls(g, f, c);
    BackCallCycle(g, s.stack, p, q);
    Scan(g, s.stack, s.visited, s.pos, s.finish, s.recursive, f, k, s.stack, s.recursive + {c, f});
  }

  /** A call to a function that has already finished. */
  lemma SeenCallKeeps(g: CallGraph, a: Start, s: Search, f: Fn, k: nat)
    requires Sound(g, a, s, f, k) && Visiting(s, f) && f in g && k < |g[f]|
    requires g[f][k] in g && g[f][k] !in s.onStack && g[f][k] in s.visited
    ensures var s' := s.(callees := s.callees + {g[f][k]}); Sound(g, a, s', f, k + 1) && Visiting(s', f)
  {
    hide Reaches, MarksOk, AllHandled, Ordered, AboveReached;
    var c := g[f][k];
    assert s.stack[s.pos[f]] == Entry(f, true);
    FromRootCall(g, a.root, f, c);
    RootOnPath(g, a, s, f, k);
    Scan(g, s.stack, s.visited, s.pos, s.finish, s.recursive, f, k, s.stack, s.recursive);
  }

  /** A call to a function not visited yet. */
  lemma NewCallKeeps(g: CallGraph, a: Start, s: Search, f: Fn, k: nat)
    requires Sound(g, a, s, f, k) && Visiting(s, f) && f in g && k < |g[f]|
    requires g[f][k] in g && g[f][k] !in s.visited
    ensures var s' := s.(callees := s.callees + {g[f][k]}, stack := s.stack + [Entry(g[f][k], false)]);
            Sound(g, a, s', f, k + 1) && Visiting(s', f)
  {
    hide SearchOk, Reaches, MarksOk;
    var c := g[f][k];
    assert s.stack[s.pos[f]] == Entry(f, true);
    FromRootCall(g, a.root, f, c);
    RootOnPath(g, a, s, f, k);
    assert Calls(g, f, c);
    PushReached(g, s.stack, s.pos[f], c);
    Scan(g, s.stack, s.visited, s.pos, s.finish, s.recursive, f, k, s.stack + [Entry(c, false)], s.recursive);
  }

  /** The last call of f has been looked at, so nothing is left to scan. */
  lemma AllScanned(g: CallGraph, a: Start, s: Search, f: Fn)
    requires f in g && Sound(g, a, s, f, |g[f]|)
    ensures Settled(g, a, s)
  {
    hide Handled, MarkersOk, Ordered, AboveReached, RootOk, CalleesOk, MarksOk;
    assert forall u, v :: Scanned(g, u, v, a.root, |g[a.root]|) ==> Scanned(g, u, v, f, |g[f]|);
  }

  /** The root stays on the path until the search ends. */
  lemma RootOnPath(g: CallGraph, a: Start, s: Search, f: Fn, k: nat)
    requires Sound(g, a, s, f, k) && Visiting(s, f)
    ensures a.root in s.onStack && s.onStack <= s.visited
  {
    hide AllHandled, Ordered, AboveReached;
    assert s.stack[0].f == a.root;
  }

  /** When the stack is empty the finished functions are exactly the root and what it reaches. */
  lemma SearchDone(g: CallGraph, a: Start, s: Search)
    requires Settled(g, a, s) && s.stack == []
    ensures s.callees == a.callees + (set f | f in g && f != a.root && Reaches(g, a.root, f))
    ensures MarksOk(g, a.root, a.recursive, s.recursive)
    ensures forall p :: IsCycle(g, p) && FromRoot(g, a.root, p[0]) ==> Broken(p, s.recursive)
  {
    assert forall f :: f in s.pos ==> s.pos[f] < 0;
    assert s.visited == s.finish.Keys;
    forall f | FromRoot(g, a.root, f) ensures f in s.finish {
      if f != a.root {
        var p :| PathFrom(g, p, a.root, f);
        ReachableFinished(g, s.finish, s.recursive, p);
      }
    }
    forall p | IsCycle(g, p) && FromRoot(g, a.root, p[0]) ensures Broken(p, s.recursive) {
      CyclesBroken(g, s.finish, s.recursive, p);
    }
  }

  // ---------------------------------------------------------------- which functions a search marks

  /** What decides the marks: the stack, the functions visited and those on the current path. */
  datatype Dfs = Dfs(stack: seq<Entry>, visited: set<Fn>, onStack: set<Fn>, recursive: set<Fn>)

  /** The calls of f from the kth on, in instruction order. */
  function ScanCalls(g: CallGraph, d: Dfs, f: Fn, k: nat): (r: Dfs)
    requires f in g
    ensures r.visited == d.visited
    decreases |g[f]| - k
  {
    if k >= |g[f]| then d
    else
      var c := g[f][k];
      if c !in g then ScanCalls(g, d, f, k + 1)
      else if c in d.onStack then ScanCalls(g, d.(recursive := d.recursive + {c, f}), f, k + 1)
      else if c !in d.visited then ScanCalls(g, d.(stack := d.stack + [Entry(c, false)]), f, k + 1)
      else ScanCalls(g, d, f, k + 1)
  }

  /** The marks once the stack is empty. */
  function MarksFrom(g: CallGraph, d: Dfs): set<Fn>
    decreases |g.Keys - d.visited|, |d.stack|
  {
    if d.stack == [] then d.recursive
    else
      var Entry(f, post) := d.stack[|d.stack| - 1];
      var rest := d.stack[..|d.stack| - 1];
      if post then MarksFrom(g, d.(stack := rest, onStack := d.onStack - {f}))
      else if f in d.visited || f !in g then MarksFrom(g, d.(stack := rest))
      else
        VisitShrinks(g.Keys, d.visited, f);
        MarksFrom(g, ScanCalls(g, Dfs(rest + [Entry(f, true)], d.visited + {f}, d.onStack + {f}, d.recursive), f, 0))
  }

  /** The marks after a search from root that began with some. */
  function RootMarks(g: CallGraph, root: Fn, recursive: set<Fn>): set<Fn> {
    MarksFrom(g, Dfs([Entry(root, false)], {}, {}, recursive))
  }

  /** The marks after searches from all the functors in turn: the order of calls and of functors decides them. */
  function Marks(g: CallGraph, roots: seq<Fn>): set<Fn> {
    if roots == [] then {}
    else
      var before := Marks(g, roots[..|roots| - 1]);
      if roots[|roots| - 1] in g then RootMarks(g, roots[|roots| - 1], before) else before
  }

  lemma MoreMarked(g: CallGraph, roots: seq<Fn>, root: Fn)
    ensures Marks(g, roots + [root]) == if root in g then RootMarks(g, root, Marks(g, roots)) else Marks(g, roots)
  {
    assert (roots + [root])[..|roots|] == roots;
  }

  /**
   Collect the transitive callees of root. `callees` gains exactly the functions with a body that
   root reaches by one or more calls, root excepted. Every function marked recursive is on a cycle,
   and every cycle root reaches has a call both ends of which are marked.
   */
  method CollectTransitiveCallees(g: CallGraph, root: Fn, callees0: set<Fn>, recursive0: set<Fn>)
    returns (callees: set<Fn>, recursive: set<Fn>)
    requires root in g
    ensures callees == callees0 + (set f | f in g && f != root && Reaches(g, root, f))
    ensures MarksOk(g, root, recursive0, recursive)
    ensures forall p :: IsCycle(g, p) && FromRoot(g, root, p[0]) ==> Broken(p, recursive)
    ensures recursive == RootMarks(g, root, recursive0)
  {
    callees, recursive := callees0, recursive0;
    var visited: set<Fn> := {};
    var onStack: set<Fn> := {};
    var stack := [Entry(root, false)];
    ghost var pos: map<Fn, nat>, finish: map<Fn, nat> := map[], map[];
    ghost var a := Start(root, callees0, recursive0);
    StartSettled(g, a);
    hide Settled, Sound, Visiting, MarksOk, Broken, IsCycle, FromRoot, Reaches;
    while stack != []
      invariant Settled(g, a, Search(stack, visited, onStack, callees, recursive, pos, finish))
      invariant MarksFrom(g, Dfs(stack, visited, onStack, recursive)) == RootMarks(g, root, recursive0)
      decreases |g.Keys - visited|, |stack|
    {
      ghost var s := Search(stack, visited, onStack, callees, recursive, pos, finish);
      var Entry(func, postVisit) := stack[|stack| - 1];
      stack := stack[..|stack| - 1];
      if postVisit {
        PostVisitKeeps(g, a, s);
        onStack := onStack - {func};
        pos, finish := pos - {func}, finish[func := |finish|];
      } else if func in visited {
        SkipVisitedKeeps(g, a, s);
      } else {
        VisitKeeps(g, a, s);
        VisitShrinks(g.Keys, visited, func);
        visited := visited + {func};
        onStack := onStack + {func};
        pos := pos[func := |stack|];
        stack := stack + [Entry(func, true)];
        for k := 0 to |g[func]|
          invariant Sound(g, a, Search(stack, visited, onStack, callees, recursive, pos, finish), func, k)
          invariant Visiting(Search(stack, visited, onStack, callees, recursive, pos, finish), func)
          invariant MarksFrom(g, ScanCalls(g, Dfs(stack, visited, onStack, recursive), func, k)) == RootMarks(g, root, recursive0)
        {
          ghost var t := Search(stack, visited, onStack, callees, recursive, pos, finish);
          var callee := g[func][k];
          if callee !in g {
            NoBodyKeeps(g, a, t, func, k);
            continue;
          }
          if callee in onStack {
            BackCallKeeps(g, a, t, func, k);
            recursive := recursive + {callee, func};
            continue;
          }
          if callee in visited {
            SeenCallKeeps(g, a, t, func, k);
          } else {
            NewCallKeeps(g, a, t, func, k);
          }
          callees := callees + {callee};
          if callee !in visited {
            stack := stack + [Entry(callee, false)];
          }
        }
        AllScanned(g, a, Search(stack, visited, onStack, callees, recursive, pos, finish), func);
      }
    }
    SearchDone(g, a, Search(stack, visited, onStack, callees, recursive, pos, finish));
  }

  lemma VisitShrinks(defined: set<Fn>, visited: set<Fn>, f: Fn)
    requires f in defined && f !in visited
    ensures |defined - (visited + {f})| < |defined - visited|
  {
    assert defined - visited == (defined - (visited + {f})) + {f};
  }

  // ---------------------------------------------------------------- the upgrade

  datatype Visibility = Public | Protected | Private | Internal

  datatype Attrs = Attrs(alwaysInline: bool, inlineHint: bool, noInline: bool)

  const NO_ATTRS := Attrs(false, false, false)

  function AttrsOf(attrs: map<Fn, Attrs>, f: Fn): Attrs { if f in attrs then attrs[f] else NO_ATTRS }

  /** The functions some functor reaches by one or more calls, each functor itself excepted. */
  ghost function FunctorCallees(g: CallGraph, roots: seq<Fn>): set<Fn> {
    set f, r | f in g && r in roots && r in g && f != r && Reaches(g, r, f) :: f
  }

  /** Private and internal functions with a body that are not alwaysinline already. */
  predicate Upgradable(vis: map<Fn, Visibility>, attrs: map<Fn, Attrs>, f: Fn) {
    f in vis && (vis[f].Private? || vis[f].Internal?) && !AttrsOf(attrs, f).alwaysInline
  }

  /** Each cycle reached from one of the functors has been broken. */
  ghost predicate AllBroken(g: CallGraph, roots: seq<Fn>, recursive: set<Fn>) {
    forall p, r :: IsCycle(g, p) && r in roots && r in g && FromRoot(g, r, p[0]) ==> Broken(p, recursive)
  }

  lemma MoreBroken(g: CallGraph, roots: seq<Fn>, recursive: set<Fn>, root: Fn, recursive': set<Fn>)
    requires AllBroken(g, roots, recursive) && recursive <= recursive'
    requires root in g ==> forall p :: IsCycle(g, p) && FromRoot(g, root, p[0]) ==> Broken(p, recursive')
    ensures AllBroken(g, roots + [root], recursive')
  {
    forall p, r | IsCycle(g, p) && r in roots + [root] && r in g && FromRoot(g, r, p[0]) ensures Broken(p, recursive') {
      if r in roots {
        assert Broken(p, recursive);
        var i :| 0 <= i < |p| - 1 && p[i] in recursive && p[i + 1] in recursive;
        assert p[i] in recursive';
      }
    }
  }

  /** Functions none of which is marked, all reached from the functors, do not call each other in a circle. */
  lemma UnmarkedAcyclic(g: CallGraph, roots: seq<Fn>, recursive: set<Fn>, chosen: set<Fn>, p: seq<Fn>)
    requires AllBroken(g, roots, recursive) && chosen <= FunctorCallees(g, roots) && chosen !! recursive
    requires IsCycle(g, p)
    ensures exists i :: 0 <= i < |p| && p[i] !in chosen
  {
    if p[0] in chosen {
      var r :| r in roots && r in g && p[0] != r && Reaches(g, r, p[0]);
      assert FromRoot(g, r, p[0]);
      assert Broken(p, recursive);
      var i :| 0 <= i < |p| - 1 && p[i] in recursive && p[i + 1] in recursive;
      assert p[i] !in chosen;
    }
  }

  lemma MoreCallees(g: CallGraph, roots: seq<Fn>, root: Fn)
    ensures FunctorCallees(g, roots + [root]) == FunctorCallees(g, roots) +
              if root in g then set f | f in g && f != root && Reaches(g, root, f) else {}
  {
    hide Reaches;
    assert forall r :: r in roots + [root] <==> r in roots || r == root;
  }

  /** The callees of all the functors, with every cycle among them broken by a mark and every mark on a cycle. */
  method CollectFunctorCallees(g: CallGraph, roots: seq<Fn>) returns (callees: set<Fn>, recursive: set<Fn>)
    ensures callees == FunctorCallees(g, roots) && AllBroken(g, roots, recursive) && recursive == Marks(g, roots)
    ensures forall f :: f in recursive ==> Reaches(g, f, f)
  {
    callees, recursive := {}, {};
    for k := 0 to |roots|
      invariant recursive == Marks(g, roots[..k])
      invariant callees == FunctorCallees(g, roots[..k]) && AllBroken(g, roots[..k], recursive)
      invariant forall f :: f in recursive ==> Reaches(g, f, f)
    {
      ghost var before := recursive;
      if roots[k] in g {
        callees, recursive := CollectTransitiveCallees(g, roots[k], callees, recursive);
      }
      hide Reaches, IsCycle, FromRoot, Broken, AllBroken, FunctorCallees, RootMarks;
      MoreCallees(g, roots[..k], roots[k]);
      MoreMarked(g, roots[..k], roots[k]);
      MoreBroken(g, roots[..k], before, roots[k], recursive);
      assert roots[..k + 1] == roots[..k] + [roots[k]];
    }
    assert roots[..|roots|] == roots;
  }

  /**
   Upgrade the private and internal callees of the pipeline functors to alwaysinline, except those
   marked recursive. What is upgraded never forms a call cycle, and what is held back is on one.
   */
  method UpgradeFunctorCallees(g: CallGraph, roots: seq<Fn>, vis: map<Fn, Visibility>, attrs0: map<Fn, Attrs>)
    returns (attrs: map<Fn, Attrs>, upgraded: set<Fn>, recursive: set<Fn>, annotated: nat)
    ensures forall f :: f in upgraded <==> f in FunctorCallees(g, roots) && Upgradable(vis, attrs0, f) && f !in recursive
    ensures recursive == Marks(g, roots) && AllBroken(g, roots, recursive) && forall f :: f in recursive ==> Reaches(g, f, f)
    ensures forall f :: f in FunctorCallees(g, roots) && Upgradable(vis, attrs0, f) && f !in upgraded ==> Reaches(g, f, f)
    ensures forall p :: IsCycle(g, p) ==> exists i :: 0 <= i < |p| && p[i] !in upgraded
    ensures forall f :: AttrsOf(attrs, f) ==
                        if f in upgraded then AttrsOf(attrs0, f).(alwaysInline := true, inlineHint := false) else AttrsOf(attrs0, f)
    ensures annotated == |upgraded|
  {
    var functorCallees;
    functorCallees, recursive := CollectFunctorCallees(g, roots);
    hide Reaches, IsCycle, AllBroken, FunctorCallees;
    attrs, upgraded, annotated := attrs0, {}, 0;
    var todo := functorCallees;
    while todo != {}
      invariant todo <= functorCallees && upgraded <= functorCallees - todo && upgraded !! recursive
      invariant forall f :: f in upgraded ==> Upgradable(vis, attrs0, f)
      invariant forall f :: f in functorCallees - todo && Upgradable(vis, attrs0, f) && f !in upgraded ==> f in recursive
      invariant forall f :: AttrsOf(attrs, f) ==
                            if f in upgraded then AttrsOf(attrs0, f).(alwaysInline := true, inlineHint := false) else AttrsOf(attrs0, f)
      invariant annotated == |upgraded|
    {
      var callee :| callee in todo;
      todo := todo - {callee};
      if callee in recursive || callee !in vis { continue; }
      if !vis[callee].Private? && !vis[callee].Internal? { continue; }
      if AttrsOf(attrs, callee).alwaysInline { continue; }
      attrs := attrs[callee := AttrsOf(attrs, callee).(alwaysInline := true, inlineHint := false)];
      upgraded := upgraded + {callee};
      annotated := annotated + 1;
    }
    forall p | IsCycle(g, p) ensures exists i :: 0 <= i < |p| && p[i] !in upgraded {
      UnmarkedAcyclic(g, roots, recursive, upgraded, p);
    }
  }

  // ---------------------------------------------------------------- the whole pass

  /** How many call instructions of the bodies fs name f. */
  function CallSites(g: CallGraph, fs: seq<Fn>, f: Fn): nat {
    if fs == [] then 0
    else CallSites(g, fs[..|fs| - 1], f) + if fs[|fs| - 1] in g then Occurrences(g[fs[|fs| - 1]], f) else 0
  }

  function Occurrences(calls: seq<Fn>, f: Fn): nat {
    if calls == [] then 0 else Occurrences(calls[..|calls| - 1], f) + if calls[|calls| - 1] == f then 1 else 0
  }

  function CountOf(counts: map<Fn, nat>, f: Fn): nat { if f in counts then counts[f] else 0 }

  /** The count of call sites of every function with a body. */
  method CountCallSites(g: CallGraph, fs: seq<Fn>) returns (counts: map<Fn, nat>)
    requires forall f :: f in fs ==> f in g
    ensures forall f :: f in g ==> CountOf(counts, f) == CallSites(g, fs, f)
  {
    counts := map[];
    for i := 0 to |fs|
      invariant forall f {:trigger CountOf(counts, f)} :: f in g ==> CountOf(counts, f) == CallSites(g, fs[..i], f)
    {
      ghost var before := counts;
      var calls := g[fs[i]];
      assert forall f {:trigger Occurrences(calls[..0], f)} :: Occurrences(calls[..0], f) == 0;
      for k := 0 to |calls|
        invariant forall f {:trigger CountOf(counts, f)} :: f in g ==> CountOf(counts, f) == CountOf(before, f) + Occurrences(calls[..k], f)
      {
        assert calls[..k + 1][..k] == calls[..k];
        ghost var previous := counts;
        if calls[k] in g { counts := counts[calls[k] := CountOf(counts, calls[k]) + 1]; }
        forall f {:trigger CountOf(counts, f)} | f in g ensures CountOf(counts, f) == CountOf(before, f) + Occurrences(calls[..k + 1], f) {
          assert CountOf(previous, f) == CountOf(before, f) + Occurrences(calls[..k], f);
        }
      }
      assert calls[..|calls|] == calls && fs[..i + 1][..i] == fs[..i];
      forall f {:trigger CountOf(counts, f)} | f in g ensures CountOf(counts, f) == CallSites(g, fs[..i + 1], f) {
        assert CountOf(before, f) == CallSites(g, fs[..i], f);
      }
    }
    assert fs[..|fs|] == fs;
  }

  /** Call instruction k of h names f. */
  predicate Site(g: CallGraph, h: Fn, k: nat, f: Fn) { h in g && k < |g[h]| && g[h][k] == f }

  /** At most one call instruction of the module names f. */
  ghost predicate SingleSite(g: CallGraph, f: Fn) {
    forall h, k, h', k' {:trigger Site(g, h, k, f), Site(g, h', k', f)} :: Site(g, h, k, f) && Site(g, h', k', f) ==> h == h' && k == k'
  }

  /** The functions of the module, each once. */
  ghost predicate ModuleOf(g: CallGraph, fs: seq<Fn>) { Distinct(fs) && forall f :: f in fs <==> f in g }

  lemma {:induction false} OccurrencesOf(calls: seq<Fn>, f: Fn)
    ensures Occurrences(calls, f) == 0 <==> forall k :: 0 <= k < |calls| ==> calls[k] != f
    ensures Occurrences(calls, f) <= 1 <==> forall k, k' :: 0 <= k < k' < |calls| && calls[k] == f ==> calls[k'] != f
  {
    if calls != [] {
      var init := calls[..|calls| - 1];
      OccurrencesOf(init, f);
      assert forall k :: 0 <= k < |init| ==> calls[k] == init[k];
      if Occurrences(init, f) > 0 {
        var k :| 0 <= k < |init| && init[k] == f;
        assert calls[k] == f;
      }
      if Occurrences(init, f) > 1 {
        var k, k' :| 0 <= k < k' < |init| && init[k] == f && init[k'] == f;
        assert calls[k] == f && calls[k'] == f;
      }
    }
  }

  /** No two call instructions of the bodies fs name f. */
  ghost predicate SingleIn(g: CallGraph, fs: seq<Fn>, f: Fn) {
    forall h, k, h', k' {:trigger Site(g, h, k, f), Site(g, h', k', f)} ::
      h in fs && h' in fs && Site(g, h, k, f) && Site(g, h', k', f) ==> h == h' && k == k'
  }

  ghost predicate NoneIn(g: CallGraph, fs: seq<Fn>, f: Fn) { forall h, k {:trigger Site(g, h, k, f)} :: h in fs ==> !Site(g, h, k, f) }

  lemma {:induction false} CallSitesOf(g: CallGraph, fs: seq<Fn>, f: Fn)
    requires Distinct(fs) && forall h :: h in fs ==> h in g
    ensures CallSites(g, fs, f) == 0 <==> NoneIn(g, fs, f)
    ensures CallSites(g, fs, f) <= 1 <==> SingleIn(g, fs, f)
  {
    if fs != [] {
      var init, last := fs[..|fs| - 1], fs[|fs| - 1];
      assert fs == init + [last] && last !in init;
      CallSitesOf(g, init, f);
      OccurrencesOf(g[last], f);
      SitesSplit(g, init, last, f);
    }
  }

  /** The sites in one more body. */
  lemma SitesSplit(g: CallGraph, init: seq<Fn>, last: Fn, f: Fn)
    requires last in g && last !in init
    ensures NoneIn(g, init + [last], f) <==> NoneIn(g, init, f) && forall k :: 0 <= k < |g[last]| ==> g[last][k] != f
    ensures SingleIn(g, init + [last], f) <==>
              || (NoneIn(g, init, f) && forall k, k' :: 0 <= k < k' < |g[last]| && g[last][k] == f ==> g[last][k'] != f)
              || (SingleIn(g, init, f) && forall k :: 0 <= k < |g[last]| ==> g[last][k] != f)
  {
    var fs := init + [last];
    assert forall h :: h in fs <==> h in init || h == last;
    if k :| 0 <= k < |g[last]| && g[last][k] == f {
      assert Site(g, last, k, f);
    }
    if k, k' :| 0 <= k < k' < |g[last]| && g[last][k] == f && g[last][k'] == f {
      assert Site(g, last, k, f) && Site(g, last, k', f);
    }
  }

  lemma SiteCount(g: CallGraph, fs: seq<Fn>, f: Fn)
    requires ModuleOf(g, fs)
    ensures CallSites(g, fs, f) <= 1 <==> SingleSite(g, f)
  {
    CallSitesOf(g, fs, f);
  }

  /** What a function that carries no inline attribute yet gets for its visibility. */
  function ByVisibility(v: Visibility, sites: nat, optimizing: bool): Attrs {
    match v
    case Internal => NO_ATTRS.(alwaysInline := true)
    case Private => if sites <= 1 then NO_ATTRS.(alwaysInline := true) else NO_ATTRS.(inlineHint := true)
    case Protected => if optimizing then NO_ATTRS.(inlineHint := true) else NO_ATTRS
    case Public => NO_ATTRS
  }

  /** A function of this visibility with a body that carries no inline attribute. */
  predicate Bare(g: CallGraph, vis: map<Fn, Visibility>, attrs: map<Fn, Attrs>, f: Fn, v: Visibility) {
    f in vis && vis[f] == v && f in g && AttrsOf(attrs, f) == NO_ATTRS
  }

  /**
   Step 1: visibility and the number of call instructions decide, without a look at call cycles. It newly forces exactly the
   bare internal functions and the bare private ones named at most once, so that what is copied to several places is internal;
   it newly hints exactly the other bare private functions and, when optimizing, the bare protected ones; and it gives noinline
   to nobody.
   */
  method AnnotateByVisibility(g: CallGraph, fs: seq<Fn>, vis: map<Fn, Visibility>, optimizing: bool, attrs0: map<Fn, Attrs>)
    returns (attrs: map<Fn, Attrs>)
    requires ModuleOf(g, fs)
    ensures forall f :: AttrsOf(attrs, f).alwaysInline <==>
              AttrsOf(attrs0, f).alwaysInline || Bare(g, vis, attrs0, f, Internal) || (Bare(g, vis, attrs0, f, Private) && SingleSite(g, f))
    ensures forall f :: AttrsOf(attrs, f).inlineHint <==>
              || AttrsOf(attrs0, f).inlineHint || (Bare(g, vis, attrs0, f, Private) && !SingleSite(g, f))
              || (Bare(g, vis, attrs0, f, Protected) && optimizing)
    ensures forall f :: AttrsOf(attrs, f).noInline == AttrsOf(attrs0, f).noInline
    ensures forall f :: AttrsOf(attrs, f) ==
                        if f in vis && f in g && AttrsOf(attrs0, f) == NO_ATTRS then ByVisibility(vis[f], CallSites(g, fs, f), optimizing)
                        else AttrsOf(attrs0, f)
  {
    var counts := CountCallSites(g, fs);
    attrs := attrs0;
    var todo := vis.Keys;
    while todo != {}
      invariant todo <= vis.Keys
      invariant forall f :: AttrsOf(attrs, f) ==
                            if f in vis && f !in todo && f in g && AttrsOf(attrs0, f) == NO_ATTRS
                            then ByVisibility(vis[f], CallSites(g, fs, f), optimizing)
                            else AttrsOf(attrs0, f)
    {
      var f :| f in todo;
      todo := todo - {f};
      if f !in g || AttrsOf(attrs, f) != NO_ATTRS { continue; }
      assert CountOf(counts, f) == CallSites(g, fs, f);
      attrs := attrs[f := ByVisibility(vis[f], CountOf(counts, f), optimizing)];
    }
    forall f ensures CallSites(g, fs, f) <= 1 <==> SingleSite(g, f) { SiteCount(g, fs, f); }
  }

  predicate Forced(attrs: map<Fn, Attrs>, p: seq<Fn>) { forall i :: 0 <= i < |p| ==> AttrsOf(attrs, p[i]).alwaysInline }

  /** Every function of p is forced already or a functor callee that visibility lets step 2 force. */
  ghost predicate Forcible(g: CallGraph, roots: seq<Fn>, vis: map<Fn, Visibility>, attrs: map<Fn, Attrs>, p: seq<Fn>) {
    forall i {:trigger p[i]} :: 0 <= i < |p| ==>
      AttrsOf(attrs, p[i]).alwaysInline || (p[i] in FunctorCallees(g, roots) && Upgradable(vis, attrs, p[i]))
  }

  /** A marked function that was not forced before stays unforced. */
  predicate HeldBack(attrs: map<Fn, Attrs>, marks: set<Fn>, p: seq<Fn>) {
    exists i :: 0 <= i < |p| && p[i] in marks && !AttrsOf(attrs, p[i]).alwaysInline
  }

  /** Both alwaysinline and noinline, which exclude each other. */
  predicate Conflicting(attrs: map<Fn, Attrs>, f: Fn) { AttrsOf(attrs, f).alwaysInline && AttrsOf(attrs, f).noInline }

  /**
   The whole pass. A call cycle ends up forced throughout exactly if it is forcible and no marked function on it is held back;
   so it does if step 1 forced all of it, and does not unless some call on it had both ends forced before step 2, which on its
   own never forces a recursive inline. A function ends up with conflicting attributes exactly if it came with noinline and
   either with alwaysinline too or as a functor callee that step 2 forces. Nothing public changes and nothing protected is
   forced; every private or internal functor callee is forced unless it is marked.
   */
  method Run(g: CallGraph, fs: seq<Fn>, roots: seq<Fn>, vis: map<Fn, Visibility>, optimizing: bool, attrs0: map<Fn, Attrs>)
    returns (attrs: map<Fn, Attrs>, attrs1: map<Fn, Attrs>)
    requires ModuleOf(g, fs)
    ensures forall f :: f in vis && vis[f].Public? ==> AttrsOf(attrs, f) == AttrsOf(attrs0, f)
    ensures forall f :: (f in vis ==> vis[f].Protected?) && AttrsOf(attrs, f).alwaysInline ==> AttrsOf(attrs0, f).alwaysInline
    ensures forall f :: f in FunctorCallees(g, roots) && f in vis && (vis[f].Private? || vis[f].Internal?) && f !in Marks(g, roots) ==>
              AttrsOf(attrs, f).alwaysInline
    ensures forall f :: AttrsOf(attrs, f).alwaysInline ==>
              || AttrsOf(attrs0, f).alwaysInline || Bare(g, vis, attrs0, f, Internal) || (Bare(g, vis, attrs0, f, Private) && SingleSite(g, f))
              || (f in FunctorCallees(g, roots) && f in vis && (vis[f].Private? || vis[f].Internal?) && f !in Marks(g, roots))
    ensures forall f :: AttrsOf(attrs1, f) ==
                        if f in vis && f in g && AttrsOf(attrs0, f) == NO_ATTRS then ByVisibility(vis[f], CallSites(g, fs, f), optimizing)
                        else AttrsOf(attrs0, f)
    ensures forall f :: AttrsOf(attrs, f) ==
                        if f in FunctorCallees(g, roots) && Upgradable(vis, attrs1, f) && f !in Marks(g, roots)
                        then AttrsOf(attrs1, f).(alwaysInline := true, inlineHint := false) else AttrsOf(attrs1, f)
    ensures AllBroken(g, roots, Marks(g, roots)) && forall f :: f in Marks(g, roots) ==> Reaches(g, f, f)
    ensures forall p :: IsCycle(g, p) ==> (Forced(attrs, p) <==> Forcible(g, roots, vis, attrs1, p) && !HeldBack(attrs1, Marks(g, roots), p))
    ensures forall p :: IsCycle(g, p) && Forced(attrs, p) ==> ForcedCall(attrs1, p)
    ensures forall p :: Forced(attrs1, p) ==> Forced(attrs, p)
    ensures forall f :: Conflicting(attrs, f) <==>
              && AttrsOf(attrs0, f).noInline
              && (AttrsOf(attrs0, f).alwaysInline || (f in FunctorCallees(g, roots) && Upgradable(vis, attrs0, f) && f !in Marks(g, roots)))
  {
    attrs1 := AnnotateByVisibility(g, fs, vis, optimizing, attrs0);
    var upgraded, recursive, annotated;
    attrs, upgraded, recursive, annotated := UpgradeFunctorCallees(g, roots, vis, attrs1);
    hide IsCycle, AllBroken, Forced, Forcible, HeldBack, FunctorCallees, Reaches, Marks, CallSites, SingleSite, Conflicting, ForcedCall;
    forall f
      ensures f in vis && vis[f].Public? ==> AttrsOf(attrs, f) == AttrsOf(attrs0, f)
      ensures (f in vis ==> vis[f].Protected?) && AttrsOf(attrs, f).alwaysInline ==> AttrsOf(attrs0, f).alwaysInline
    {
      assert f in upgraded ==> Upgradable(vis, attrs1, f);
    }
    hide ByVisibility, Bare;
    forall f
      ensures Conflicting(attrs, f) <==>
                && AttrsOf(attrs0, f).noInline
                && (AttrsOf(attrs0, f).alwaysInline || (f in FunctorCallees(g, roots) && Upgradable(vis, attrs0, f) && f !in Marks(g, roots)))
    {
      ConflictExactly(f, f in upgraded, AttrsOf(attrs0, f), AttrsOf(attrs1, f), AttrsOf(attrs, f));
      ConflictMeans(attrs, f);
    }
    forall p
      ensures IsCycle(g, p) ==> (Forced(attrs, p) <==> Forcible(g, roots, vis, attrs1, p) && !HeldBack(attrs1, Marks(g, roots), p))
      ensures IsCycle(g, p) && Forced(attrs, p) ==> ForcedCall(attrs1, p)
      ensures Forced(attrs1, p) ==> Forced(attrs, p)
    {
      ForcedExactly(g, roots, vis, recursive, upgraded, attrs1, attrs, p);
      ForcedStays(attrs1, attrs, p);
      if IsCycle(g, p) && Forced(attrs, p) { ForcedCycle(g, roots, recursive, upgraded, attrs1, p); }
    }
  }

  lemma ConflictMeans(attrs: map<Fn, Attrs>, f: Fn)
    ensures Conflicting(attrs, f) <==> AttrsOf(attrs, f).alwaysInline && AttrsOf(attrs, f).noInline
  {}

  lemma ConflictExactly(f: Fn, upgraded: bool, a0: Attrs, a1: Attrs, a: Attrs)
    requires a1 == a0 || (a0 == NO_ATTRS && !a1.noInline)
    requires a == if upgraded then a1.(alwaysInline := true, inlineHint := false) else a1
    ensures a.alwaysInline && a.noInline <==> a0.noInline && (a0.alwaysInline || upgraded)
  {}

  lemma ForcedStays(attrs1: map<Fn, Attrs>, attrs: map<Fn, Attrs>, p: seq<Fn>)
    requires forall f :: AttrsOf(attrs1, f).alwaysInline ==> AttrsOf(attrs, f).alwaysInline
    ensures Forced(attrs1, p) ==> Forced(attrs, p)
  {}

  /** Some call on p has both its ends forced. */
  predicate ForcedCall(attrs: map<Fn, Attrs>, p: seq<Fn>) {
    exists i :: 0 <= i < |p| - 1 && AttrsOf(attrs, p[i]).alwaysInline && AttrsOf(attrs, p[i + 1]).alwaysInline
  }

  lemma ForcedExactly(g: CallGraph, roots: seq<Fn>, vis: map<Fn, Visibility>, recursive: set<Fn>, upgraded: set<Fn>,
                      attrs1: map<Fn, Attrs>, attrs: map<Fn, Attrs>, p: seq<Fn>)
    requires forall f :: f in upgraded <==> f in FunctorCallees(g, roots) && Upgradable(vis, attrs1, f) && f !in recursive
    requires forall f :: AttrsOf(attrs, f) ==
                         if f in upgraded then AttrsOf(attrs1, f).(alwaysInline := true, inlineHint := false) else AttrsOf(attrs1, f)
    ensures Forced(attrs, p) <==> Forcible(g, roots, vis, attrs1, p) && !HeldBack(attrs1, recursive, p)
    ensures Forced(attrs, p) ==> forall i {:trigger p[i]} :: 0 <= i < |p| ==> p[i] in upgraded || AttrsOf(attrs1, p[i]).alwaysInline
  {
    hide FunctorCallees;
    if Forced(attrs, p) {
      forall i {:trigger p[i]} | 0 <= i < |p|
        ensures p[i] in upgraded || AttrsOf(attrs1, p[i]).alwaysInline
      {
        assert AttrsOf(attrs, p[i]).alwaysInline;
      }
    } else if Forcible(g, roots, vis, attrs1, p) {
      var i :| 0 <= i < |p| && !AttrsOf(attrs, p[i]).alwaysInline;
      assert p[i] !in upgraded;
      assert !AttrsOf(attrs1, p[i]).alwaysInline && p[i] in recursive;
    }
  }

  lemma ForcedCycle(g: CallGraph, roots: seq<Fn>, recursive: set<Fn>, upgraded: set<Fn>, attrs1: map<Fn, Attrs>, p: seq<Fn>)
    requires AllBroken(g, roots, recursive) && upgraded <= FunctorCallees(g, roots) && upgraded !! recursive
    requires IsCycle(g, p) && forall i {:trigger p[i]} :: 0 <= i < |p| ==> p[i] in upgraded || AttrsOf(attrs1, p[i]).alwaysInline
    ensures ForcedCall(attrs1, p)
  {
    if i :| 0 <= i < |p| && p[i] in upgraded {
      var r :| r in roots && r in g && p[i] != r && Reaches(g, r, p[i]);
      var q := Rotated(g, p, i);
      assert FromRoot(g, r, q[0]);
      assert Broken(q, recursive);
      var j :| 0 <= j < |q| - 1 && q[j] in recursive && q[j + 1] in recursive;
      assert Adjacent(p, q[j], q[j + 1]);
      var k :| 0 <= k < |p| - 1 && p[k] == q[j] && p[k + 1] == q[j + 1];
      assert p[k] !in upgraded && p[k + 1] !in upgraded;
    } else {
      assert AttrsOf(attrs1, p[0]).alwaysInline && AttrsOf(attrs1, p[1]).alwaysInline;
    }
  }

  /** a and then b come next to each other on p. */
  predicate Adjacent(p: seq<Fn>, a: Fn, b: Fn) { exists k :: 0 <= k < |p| - 1 && p[k] == a && p[k + 1] == b }

  /** The same cycle, begun at its function i. */
  lemma Rotated(g: CallGraph, p: seq<Fn>, i: nat) returns (q: seq<Fn>)
    requires IsCycle(g, p) && i < |p|
    ensures IsCycle(g, q) && q[0] == p[i]
    ensures forall j :: 0 <= j < |q| - 1 ==> Adjacent(p, q[j], q[j + 1])
  {
    q := p[i..|p| - 1] + p[..i + 1];
    hide IsPath, Adjacent;
    forall j | 0 <= j < |q| - 1 ensures Adjacent(p, q[j], q[j + 1]) && Calls(g, q[j], q[j + 1]) {
      RotatedAt(p, q, i, j);
      IsPathAt(g, p, if i + j < |p| - 1 then i + j else i + j - (|p| - 1));
    }
    IsPathAll(g, q);
  }

  lemma RotatedAt(p: seq<Fn>, q: seq<Fn>, i: nat, j: nat)
    requires |p| >= 2 && p[0] == p[|p| - 1] && i < |p| && q == p[i..|p| - 1] + p[..i + 1] && j < |p| - 1
    ensures var k := if i + j < |p| - 1 then i + j else i + j - (|p| - 1); q[j] == p[k] && q[j + 1] == p[k + 1]
    ensures Adjacent(p, q[j], q[j + 1])
  {}

  lemma IsPathAt(g: CallGraph, p: seq<Fn>, k: nat)
    requires IsPath(g, p) && k < |p| - 1
    ensures Calls(g, p[k], p[k + 1])
  {}

  lemma IsPathAll(g: CallGraph, p: seq<Fn>)
    requires forall i :: 0 <= i < |p| - 1 ==> Calls(g, p[i], p[i + 1])
    ensures IsPath(g, p)
  {}

  /** An internal function that calls itself is forced by step 1. */
  method SelfCallForced() returns (attrs: map<Fn, Attrs>)
    ensures IsCycle(map[0 := [0]], [0, 0]) && Forced(attrs, [0, 0])
  {
    var attrs1;
    attrs, attrs1 := Run(map[0 := [0]], [0], [], map[0 := Internal], false, map[]);
    assert Calls(map[0 := [0]], 0, 0);
    assert AttrsOf(attrs1, 0).alwaysInline;
    assert Forced(attrs1, [0, 0]);
  }

  /** 0 calls 1 twice, 1 calls 2 and 2 calls 0 again. */
  function Triangle(): CallGraph { map[0 := [1, 1], 1 := [2], 2 := [0]] }

  /** The search from 0 after k steps. */
  function TriangleDfs(k: nat): Dfs
    requires k <= 7
  {
    match k
    case 0 => Dfs([Entry(0, false)], {}, {}, {})
    case 1 => Dfs([Entry(0, true), Entry(1, false), Entry(1, false)], {0}, {0}, {})
    case 2 => Dfs([Entry(0, true), Entry(1, false), Entry(1, true), Entry(2, false)], {0, 1}, {0, 1}, {})
    case 3 => Dfs([Entry(0, true), Entry(1, false), Entry(1, true), Entry(2, true)], {0, 1, 2}, {0, 1, 2}, {0, 2})
    case 4 => Dfs([Entry(0, true), Entry(1, false), Entry(1, true)], {0, 1, 2}, {0, 1}, {0, 2})
    case 5 => Dfs([Entry(0, true), Entry(1, false)], {0, 1, 2}, {0}, {0, 2})
    case 6 => Dfs([Entry(0, true)], {0, 1, 2}, {0}, {0, 2})
    case 7 => Dfs([], {0, 1, 2}, {}, {0, 2})
  }

  /** It marks the ends of the call from 2 to 0, and not 1. */
  lemma TriangleMarks()
    ensures Marks(Triangle(), [0]) == {0, 2}
  {
    TriangleRoot();
    assert Marks(Triangle(), []) == {};
    hide RootMarks, Marks;
    MoreMarked(Triangle(), [], 0);
    assert [] + [0] == [0];
  }

  lemma TriangleRoot()
    ensures RootMarks(Triangle(), 0, {}) == {0, 2}
  {
    TriangleVisit0();
    TriangleVisit1();
    TriangleVisit2();
    TrianglePops();
    NoneLeft(Triangle(), TriangleDfs(7));
    hide MarksFrom;
    assert TriangleDfs(0) == Dfs([Entry(0, false)], {}, {}, {});
  }

  lemma NoneLeft(g: CallGraph, d: Dfs)
    requires d.stack == []
    ensures MarksFrom(g, d) == d.recursive
  {}

  lemma TriangleVisit0()
    ensures MarksFrom(Triangle(), TriangleDfs(0)) == MarksFrom(Triangle(), TriangleDfs(1))
  {
    MarksVisit(Triangle(), TriangleDfs(0), [], {0}, {0}, 0, TriangleDfs(1));
  }

  lemma TriangleVisit1()
    ensures MarksFrom(Triangle(), TriangleDfs(1)) == MarksFrom(Triangle(), TriangleDfs(2))
  {
    MarksVisit(Triangle(), TriangleDfs(1), [Entry(0, true), Entry(1, false)], {0, 1}, {0, 1}, 1, TriangleDfs(2));
  }

  lemma TriangleVisit2()
    ensures MarksFrom(Triangle(), TriangleDfs(2)) == MarksFrom(Triangle(), TriangleDfs(3))
  {
    var d := Dfs([Entry(0, true), Entry(1, false), Entry(1, true), Entry(2, true)], {0, 1, 2}, {0, 1, 2}, {});
    assert ScanCalls(Triangle(), d, 2, 0) == ScanCalls(Triangle(), d.(recursive := {0, 2}), 2, 1) by {
      assert d.recursive + {0, 2} == {0, 2};
    }
    MarksVisit(Triangle(), TriangleDfs(2), [Entry(0, true), Entry(1, false), Entry(1, true)], {0, 1, 2}, {0, 1, 2}, 2, TriangleDfs(3));
  }

  lemma TrianglePops()
    ensures MarksFrom(Triangle(), TriangleDfs(3)) == MarksFrom(Triangle(), TriangleDfs(7))
  {
    MarksPop(Triangle(), TriangleDfs(3), TriangleDfs(4));
    MarksPop(Triangle(), TriangleDfs(4), TriangleDfs(5));
    MarksPop(Triangle(), TriangleDfs(5), TriangleDfs(6));
    MarksPop(Triangle(), TriangleDfs(6), TriangleDfs(7));
  }

  lemma MarksVisit(g: CallGraph, d: Dfs, rest: seq<Entry>, visited: set<Fn>, onStack: set<Fn>, f: Fn, next: Dfs)
    requires f in g && f !in d.visited && d.stack == rest + [Entry(f, false)] && visited == d.visited + {f} && onStack == d.onStack + {f}
    requires next == ScanCalls(g, Dfs(rest + [Entry(f, true)], visited, onStack, d.recursive), f, 0)
    ensures MarksFrom(g, d) == MarksFrom(g, next)
  {
    assert (rest + [Entry(f, false)])[..|rest|] == rest;
    VisitShrinks(g.Keys, d.visited, f);
  }

  lemma MarksPop(g: CallGraph, d: Dfs, next: Dfs)
    requires d.stack != [] && next.stack == d.stack[..|d.stack| - 1] && next.visited == d.visited && next.recursive == d.recursive
    requires var Entry(f, post) := d.stack[|d.stack| - 1];
             (post || f in d.visited) && next.onStack == if post then d.onStack - {f} else d.onStack
    ensures MarksFrom(g, d) == MarksFrom(g, next)
  {
    assert next == d.(stack := next.stack, onStack := next.onStack);
  }

  /** Step 1 forces 0 and 2, which are internal; step 2 upgrades 1, which is private and called twice, and completes the cycle. */
  method StepTwoClosesCycle() returns (attrs: map<Fn, Attrs>, attrs1: map<Fn, Attrs>)
    ensures IsCycle(Triangle(), [0, 1, 2, 0]) && Forced(attrs, [0, 1, 2, 0]) && !AttrsOf(attrs1, 1).alwaysInline
  {
    hide IsPath, Marks, FunctorCallees, CallSites, SingleSite, Site, Reaches, AllBroken, Forcible, HeldBack, IsCycle, Conflicting, Bare, ForcedCall;
    hide Occurrences, Elems;
    var vis := map[0 := Internal, 1 := Private, 2 := Internal];
    TriangleCalls();
    TriangleSites();
    TriangleMarks();
    attrs, attrs1 := Run(Triangle(), [0, 1, 2], [0], vis, false, map[]);
    hide Triangle;
    assert AttrsOf(attrs1, 0).alwaysInline && AttrsOf(attrs1, 2).alwaysInline && !AttrsOf(attrs1, 1).alwaysInline;
    assert AttrsOf(attrs, 0).alwaysInline && AttrsOf(attrs, 2).alwaysInline && AttrsOf(attrs, 1).alwaysInline;
  }

  lemma TriangleCalls()
    ensures IsCycle(Triangle(), [0, 1, 2, 0]) && 1 in FunctorCallees(Triangle(), [0]) && ModuleOf(Triangle(), [0, 1, 2])
    ensures 0 in Triangle() && 1 in Triangle() && 2 in Triangle()
  {
    var g := Triangle();
    assert Calls(g, 0, 1) && Calls(g, 1, 2) && Calls(g, 2, 0);
    assert IsPath(g, [0, 1, 2, 0]);
    CallReaches(g, 0, 1);
    assert 0 in [0];
  }

  lemma TriangleSites()
    ensures CallSites(Triangle(), [0, 1, 2], 1) == 2
  {
    var g := Triangle();
    assert [0, 1, 2][..2] == [0, 1] && [0, 1][..1] == [0] && [0][..0] == [];
    assert Occurrences(g[0], 1) == 2 by { assert [1, 1][..1] == [1] && [1][..0] == []; }
    assert Occurrences(g[1], 1) == 0 by { assert [2][..0] == []; }
    assert Occurrences(g[2], 1) == 0 by { assert [0][..0] == []; }
  }

  /** A private functor callee that came with noinline ends up with both attributes. */
  method NoInlineForced() returns (attrs: map<Fn, Attrs>)
    ensures Conflicting(attrs, 1)
  {
    var g: CallGraph := map[0 := [1], 1 := []];
    var attrs1;
    attrs, attrs1 := Run(g, [0, 1], [0], map[1 := Private], false, map[1 := NO_ATTRS.(noInline := true)]);
    assert Calls(g, 0, 1);
    CallReaches(g, 0, 1);
    assert 1 in FunctorCallees(g, [0]) by { assert 0 in [0]; }
    forall p ensures !PathFrom(g, p, 1, 1) {
      assert PathFrom(g, p, 1, 1) ==> Calls(g, p[0], p[1]);
    }
    assert !Reaches(g, 1, 1);
  }
}
