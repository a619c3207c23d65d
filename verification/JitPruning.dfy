/** What a specialization context leaves of a pipeline: edges that no pattern matches, and the stages they reach. */
module JitPruning {
  import opened Paths

  datatype Edge = Edge(source: string, target: string)

  predicate MatchesName(pattern: string, name: string) { pattern == "*" || name == pattern }

  predicate Matches(pattern: Edge, e: Edge) { MatchesName(pattern.source, e.source) && MatchesName(pattern.target, e.target) }

  predicate Survives(patterns: seq<Edge>, e: Edge) {
    forall i :: 0 <= i < |patterns| ==> !Matches(patterns[i], e)
  }

  /** The edges no pattern matches, in order. */
  function Surviving(edges: seq<Edge>, patterns: seq<Edge>): (r: seq<Edge>)
    ensures forall e :: e in r <==> e in edges && Survives(patterns, e)
  {
    if edges == [] then []
    else
      var last := edges[|edges| - 1];
      assert edges == edges[..|edges| - 1] + [last];
      Surviving(edges[..|edges| - 1], patterns) + (if Survives(patterns, last) then [last] else [])
  }

  lemma {:induction false} SurvivingMore(edges: seq<Edge>, patterns: seq<Edge>, p: Edge)
    ensures Surviving(Surviving(edges, patterns), [p]) == Surviving(edges, patterns + [p])
  {
    if edges != [] {
      var init, last := edges[..|edges| - 1], edges[|edges| - 1];
      SurvivingMore(init, patterns, p);
      var s := Surviving(init, patterns);
      assert Survives(patterns + [p], last) <==> Survives(patterns, last) && !Matches(p, last) by {
        assert (patterns + [p])[|patterns|] == p;
        if Survives(patterns + [p], last) {
          forall i | 0 <= i < |patterns| ensures !Matches(patterns[i], last) { assert (patterns + [p])[i] == patterns[i]; }
        }
      }
      assert Survives([p], last) <==> !Matches(p, last) by { assert [p][0] == p; }
      if Survives(patterns, last) {
        assert (s + [last])[..|s|] == s;
      } else {
        assert s + [] == s;
      }
    }
  }

  lemma {:induction false} SurvivingAll(edges: seq<Edge>)
    ensures Surviving(edges, []) == edges
  {
    if edges != [] { SurvivingAll(edges[..|edges| - 1]); }
  }

  /** Some pattern names both ends of the edge, where a star names every stage. */
  predicate Named(patterns: seq<Edge>, e: Edge) {
    exists p :: p in patterns && (p.source == "*" || p.source == e.source) && (p.target == "*" || p.target == e.target)
  }

  /** The edges left are those at these places of the list, in order: the places where no pattern names the edge. */
  ghost predicate LeftAt(edges: seq<Edge>, patterns: seq<Edge>, left: seq<Edge>, places: seq<nat>) {
    && |left| == |places|
    && (forall i, j :: 0 <= i < j < |places| ==> places[i] < places[j])
    && (forall i {:trigger places[i]} :: 0 <= i < |places| ==> places[i] < |edges| && left[i] == edges[places[i]])
    && (forall k {:trigger k in places} {:trigger edges[k]} :: 0 <= k < |edges| ==> (k in places <==> !Named(patterns, edges[k])))
  }

  lemma {:induction false} SurvivingPlaces(edges: seq<Edge>, patterns: seq<Edge>) returns (places: seq<nat>)
    ensures LeftAt(edges, patterns, Surviving(edges, patterns), places)
  {
    hide LeftAt, Survives;
    if edges == [] {
      places := [];
      NoPlaces(patterns);
    } else {
      var init, last := edges[..|edges| - 1], edges[|edges| - 1];
      assert edges == init + [last];
      var before := SurvivingPlaces(init, patterns);
      NamedExactly(patterns, last);
      places := if Survives(patterns, last) then before + [|init|] else before;
      PlacesMore(init, last, patterns, Surviving(init, patterns), before);
      assert Surviving(init, patterns) + [] == Surviving(init, patterns);
    }
  }

  lemma NoPlaces(patterns: seq<Edge>)
    ensures LeftAt([], patterns, [], [])
  {}

  lemma PlacesMore(init: seq<Edge>, last: Edge, patterns: seq<Edge>, left: seq<Edge>, before: seq<nat>)
    requires LeftAt(init, patterns, left, before)
    ensures if Named(patterns, last) then LeftAt(init + [last], patterns, left, before) else LeftAt(init + [last], patterns, left + [last], before + [|init|])
  {
    hide Named;
    var edges := init + [last];
    forall k {:trigger edges[k]} | 0 <= k < |edges| ensures k in before <==> k < |init| && !Named(patterns, edges[k]) {
      if k < |init| { assert edges[k] == init[k]; }
    }
  }

  lemma NamedExactly(patterns: seq<Edge>, e: Edge)
    ensures Survives(patterns, e) <==> !Named(patterns, e)
  {
    if i :| 0 <= i < |patterns| && Matches(patterns[i], e) { assert patterns[i] in patterns; }
    if p :| p in patterns && (p.source == "*" || p.source == e.source) && (p.target == "*" || p.target == e.target) {
      var i :| 0 <= i < |patterns| && patterns[i] == p;
    }
  }

  /** The next edge looked at stays unless the pattern matches it. */
  lemma SurvivingNext(edges: seq<Edge>, p: Edge, k: nat)
    requires k < |edges|
    ensures Surviving(edges[..k + 1], [p]) == Surviving(edges[..k], [p]) + (if Matches(p, edges[k]) then [] else [edges[k]])
  {
    assert edges[..k + 1][..k] == edges[..k];
    assert [p][0] == p;
    assert Survives([p], edges[k]) <==> !Matches(p, edges[k]);
  }

  /** Erasing the edges one pattern matches, while walking over them. */
  method EraseMatching(edges: seq<Edge>, p: Edge) returns (left: seq<Edge>)
    ensures left == Surviving(edges, [p])
  {
    hide Matches, Surviving;
    left := edges;
    ghost var done, rest, k := [], edges, 0;
    var at := 0;
    assert edges[..0] == [] && edges[0..] == edges;
    assert Surviving([], [p]) == [] by { SurvivingNone(p); }
    while at < |left|
      invariant 0 <= k <= |edges| && at == |done| && rest == edges[k..] && left == done + rest
      invariant done == Surviving(edges[..k], [p])
      decreases |left| - at
    {
      SurvivingNext(edges, p, k);
      DropFirst(done, rest);
      if Matches(p, left[at]) {
        left := left[..at] + left[at + 1..];
      } else {
        done := done + [rest[0]];
        at := at + 1;
      }
      rest := rest[1..];
      k := k + 1;
    }
    assert edges[..k] == edges;
  }

  lemma DropFirst(done: seq<Edge>, rest: seq<Edge>)
    requires rest != []
    ensures (done + rest)[|done|] == rest[0]
    ensures (done + rest)[..|done|] + (done + rest)[|done| + 1..] == done + rest[1..]
    ensures done + rest == (done + [rest[0]]) + rest[1..]
  {}

  lemma SurvivingNone(p: Edge)
    ensures Surviving([], [p]) == []
  {}

  /** Pattern by pattern. */
  method ApplyConstraints(edges: seq<Edge>, patterns: seq<Edge>) returns (left: seq<Edge>)
    ensures left == Surviving(edges, patterns)
    ensures exists places :: LeftAt(edges, patterns, left, places)
  {
    left := edges;
    var i := 0;
    SurvivingAll(edges);
    assert patterns[..0] == [];
    while i < |patterns|
      invariant 0 <= i <= |patterns| && left == Surviving(edges, patterns[..i])
    {
      left := EraseMatching(left, patterns[i]);
      SurvivingMore(edges, patterns[..i], patterns[i]);
      assert patterns[..i + 1] == patterns[..i] + [patterns[i]];
      i := i + 1;
    }
    assert patterns[..i] == patterns;
    ghost var places := SurvivingPlaces(edges, patterns);
  }

  // ---------------------------------------------------------------- reachable stages

  function Steps(edges: seq<Edge>): (string, string) -> bool {
    (a: string, b: string) => Edge(a, b) in edges
  }

  ghost predicate Reachable(edges: seq<Edge>, sources: seq<string>, n: string) {
    exists s :: s in sources && Closure(Steps(edges), s, n)
  }

  function Names(ns: seq<string>): (s: set<string>)
    ensures forall n :: n in s <==> n in ns
  {
    if ns == [] then {} else Names(ns[..|ns| - 1]) + {ns[|ns| - 1]}
  }

  function Targets(edges: seq<Edge>): (s: set<string>)
    ensures forall e :: e in edges ==> e.target in s
  {
    if edges == [] then {}
    else
      assert edges == edges[..|edges| - 1] + [edges[|edges| - 1]];
      Targets(edges[..|edges| - 1]) + {edges[|edges| - 1].target}
  }

  /** Reached so far, with those still to follow in the worklist; `cur` has followed its first k edges. */
  ghost predicate Following(edges: seq<Edge>, sources: seq<string>, reached: set<string>, work: seq<string>, cur: string, k: nat) {
    && (forall s :: s in sources ==> s in reached)
    && (forall n {:trigger Reachable(edges, sources, n)} :: n in reached ==> Reachable(edges, sources, n))
    && (forall n :: n in work ==> n in reached)
    && reached <= Names(sources) + Targets(edges)
    && forall i {:trigger edges[i]} :: 0 <= i < |edges| && edges[i].source in reached && edges[i].source !in work && (edges[i].source == cur ==> i < k) ==> edges[i].target in reached
  }

  lemma ReachableStep(edges: seq<Edge>, sources: seq<string>, e: Edge)
    requires Reachable(edges, sources, e.source) && e in edges
    ensures Reachable(edges, sources, e.target)
  {
    var s :| s in sources && Closure(Steps(edges), s, e.source);
    ClosureStep(Steps(edges), s, e.source, e.target);
  }

  lemma AllFollowed(edges: seq<Edge>, sources: seq<string>, reached: set<string>, cur: string)
    requires Following(edges, sources, reached, [], cur, |edges|)
    ensures forall n :: n in reached <==> Reachable(edges, sources, n)
  {
    forall n | Reachable(edges, sources, n) ensures n in reached {
      var s :| s in sources && Closure(Steps(edges), s, n);
      forall x, y {:trigger Steps(edges)(x, y)} | x in reached && Steps(edges)(x, y) ensures y in reached {
        var i :| 0 <= i < |edges| && edges[i] == Edge(x, y);
      }
      ClosureInside(Steps(edges), s, n, reached);
    }
  }

  /** The worklist: stages kept are those some source reaches, with their stage numbers. */
  method PruneUnreachable(edges: seq<Edge>, sources: seq<string>, stages: map<string, int>) returns (kept: map<string, int>)
    ensures forall n :: n in kept <==> n in stages && Reachable(edges, sources, n)
    ensures forall n :: n in kept ==> kept[n] == stages[n]
  {
    hide Reachable;
    var reached, work := Names(sources), sources;
    forall s | s in sources ensures Reachable(edges, sources, s) { SourceReachable(edges, sources, s); }
    ghost var cur := "";
    while |work| > 0
      invariant Following(edges, sources, reached, work, cur, |edges|)
      decreases Names(sources) + Targets(edges) - reached, |work|
    {
      var node := work[|work| - 1];
      assert work == work[..|work| - 1] + [node];
      work := work[..|work| - 1];
      cur := node;
      var k := 0;
      ghost var reached0, work0 := reached, work;
      while k < |edges|
        invariant 0 <= k <= |edges| && node in reached
        invariant Following(edges, sources, reached, work, node, k)
        invariant (reached == reached0 && work == work0) || reached > reached0
      {
        if edges[k].source == node && edges[k].target !in reached {
          ReachableStep(edges, sources, edges[k]);
          assert edges[k] in edges;
          reached := reached + {edges[k].target};
          work := work + [edges[k].target];
        }
        k := k + 1;
      }
    }
    AllFollowed(edges, sources, reached, cur);
    kept := map n | n in stages && n in reached :: stages[n];
  }

  lemma SourceReachable(edges: seq<Edge>, sources: seq<string>, s: string)
    requires s in sources
    ensures Reachable(edges, sources, s)
  {
    ClosureSelf(Steps(edges), s);
  }

  /** A stage kept has a path from a source on which every stage is reachable, over edges that survive. */
  lemma KeptHasPath(edges: seq<Edge>, sources: seq<string>, n: string) returns (p: seq<string>)
    requires Reachable(edges, sources, n)
    ensures |p| > 0 && p[0] in sources && p[|p| - 1] == n
    ensures forall i {:trigger p[i]} :: 0 <= i < |p| ==> Reachable(edges, sources, p[i]) && (i + 1 < |p| ==> Edge(p[i], p[i + 1]) in edges)
  {
    var s :| s in sources && Closure(Steps(edges), s, n);
    p :| PathTo(Steps(edges), p, s, n);
    forall i {:trigger p[i]} | 0 <= i < |p| ensures Reachable(edges, sources, p[i]) && (i + 1 < |p| ==> Edge(p[i], p[i + 1]) in edges) {
      PathReaches(Steps(edges), p, s, n, i);
      if i + 1 < |p| { assert Steps(edges)(p[i], p[i + 1]); }
    }
  }
}
