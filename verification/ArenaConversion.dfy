/** Which allocations move to the arena, and which frees go: claims counted over the walks of all allocation sites. */
module ArenaConversion {
  import opened EscapeRuns
  import opened EscapeWalk
  import opened Paths
  import opened Sequences

  /** Safe sites with the frees found for them, and the frees found for escaping sites before their walks gave up. */
  datatype Scope = Scope(safe: seq<Id>, frees: seq<seq<Id>>, recorded: set<Id>)

  ghost predicate ValidSites(g: Graph, sites: seq<Id>) {
    Distinct(sites) && forall i :: 0 <= i < |sites| ==> sites[i] < |g.insts|
  }

  /** What discovery promises of its result for the first n sites. */
  ghost predicate Discovered(g: Graph, scope: set<nat>, sites: seq<Id>, n: nat, s: Scope)
    requires WellFormed(g) && ValidSites(g, sites) && n <= |sites|
  {
    && |s.safe| == |s.frees| && Distinct(s.safe)
    && (forall x {:trigger x in s.safe} :: x in s.safe <==> x in sites[..n] && !Escapes(g, scope, x))
    && (forall i {:trigger s.frees[i]} :: 0 <= i < |s.safe| ==> FoundFrees(g, s.safe[i], s.frees[i]))
    && (forall f {:trigger f in s.recorded} {:trigger Recorded(g, scope, sites[..n], f)} :: f in s.recorded <==> Recorded(g, scope, sites[..n], f))
  }

  ghost predicate FoundFrees(g: Graph, x: Id, frees: seq<Id>)
    requires WellFormed(g)
  {
    Distinct(frees) && forall f {:trigger f in frees} {:trigger FreeOf(g, x, f)} :: f in frees <==> FreeOf(g, x, f)
  }

  /** The walk of some escaping site saw the free f before it returned. */
  ghost predicate Recorded(g: Graph, scope: set<nat>, sites: seq<Id>, f: Id)
    requires WellFormed(g)
  {
    exists x :: x in sites && Escapes(g, scope, x) && f in SeenFrees(g, scope, x)
  }

  lemma RecordedMore(g: Graph, scope: set<nat>, sites: seq<Id>, x: Id, f: Id)
    requires WellFormed(g)
    ensures Recorded(g, scope, sites + [x], f) <==> Recorded(g, scope, sites, f) || (Escapes(g, scope, x) && f in SeenFrees(g, scope, x))
  {
    hide WellFormed, Escapes, SeenFrees;
    if Recorded(g, scope, sites, f) {
      var y :| y in sites && Escapes(g, scope, y) && f in SeenFrees(g, scope, y);
      assert y in sites + [x];
    }
    if Escapes(g, scope, x) && f in SeenFrees(g, scope, x) { assert x in sites + [x]; }
  }

  lemma DiscoveredMore(g: Graph, scope: set<nat>, sites: seq<Id>, n: nat, s: Scope, escapes: bool, frees: seq<Id>)
    requires WellFormed(g) && ValidSites(g, sites) && n < |sites| && Discovered(g, scope, sites, n, s)
    requires escapes <==> Escapes(g, scope, sites[n])
    requires !escapes ==> FoundFrees(g, sites[n], frees)
    requires frees == SeenFrees(g, scope, sites[n])
    ensures Discovered(g, scope, sites, n + 1,
                       if escapes then s.(recorded := s.recorded + Elems(frees)) else s.(safe := s.safe + [sites[n]], frees := s.frees + [frees]))
  {
    hide WellFormed, Escapes, Recorded, FoundFrees, FreeOf, SeenFrees;
    assert sites[..n + 1] == sites[..n] + [sites[n]];
    assert sites[n] !in sites[..n];
    assert sites[n] !in s.safe;
    var s' := if escapes then s.(recorded := s.recorded + Elems(frees)) else s.(safe := s.safe + [sites[n]], frees := s.frees + [frees]);
    forall i {:trigger s'.frees[i]} | 0 <= i < |s'.safe| ensures FoundFrees(g, s'.safe[i], s'.frees[i]) {
      if i < |s.safe| { assert FoundFrees(g, s.safe[i], s.frees[i]); }
    }
    forall f ensures f in s'.recorded <==> Recorded(g, scope, sites[..n + 1], f) {
      RecordedMore(g, scope, sites[..n], sites[n], f);
    }
  }

  method Discover(g: Graph, scope: set<nat>, sites: seq<Id>) returns (s: Scope)
    requires WellFormed(g) && ValidSites(g, sites)
    ensures Discovered(g, scope, sites, |sites|, s)
  {
    s := Scope([], [], {});
    var n := 0;
    while n < |sites|
      invariant 0 <= n <= |sites| && Discovered(g, scope, sites, n, s)
    {
      var x := sites[n];
      var escapes, frees := EscapesScope(g, scope, x);
      DiscoveredMore(g, scope, sites, n, s, escapes, frees);
      if escapes {
        s := s.(recorded := s.recorded + Elems(frees));
      } else {
        s := s.(safe := s.safe + [x], frees := s.frees + [frees]);
      }
      n := n + 1;
    }
  }

  // ---------------------------------------------------------------- claims

  /** How many of the sites claim the free f. */
  function Claims(frees: seq<seq<Id>>, f: Id): nat {
    if frees == [] then 0 else Claims(frees[..|frees| - 1], f) + if f in frees[|frees| - 1] then 1 else 0
  }

  lemma {:induction false} ClaimedTwice(frees: seq<seq<Id>>, i: nat, j: nat, f: Id)
    requires i < j < |frees| && f in frees[i] && f in frees[j]
    ensures Claims(frees, f) >= 2
  {
    if j == |frees| - 1 {
      ClaimedOnce(frees[..j], i, f);
    } else {
      ClaimedTwice(frees[..|frees| - 1], i, j, f);
    }
  }

  lemma {:induction false} ClaimedOnce(frees: seq<seq<Id>>, i: nat, f: Id)
    requires i < |frees| && f in frees[i]
    ensures Claims(frees, f) >= 1
  {
    if i < |frees| - 1 { ClaimedOnce(frees[..|frees| - 1], i, f); }
  }

  lemma {:induction false} OnlyClaim(frees: seq<seq<Id>>, i: nat, f: Id)
    requires i < |frees| && f in frees[i] && forall j :: 0 <= j < |frees| && j != i ==> f !in frees[j]
    ensures Claims(frees, f) == 1
  {
    var init := frees[..|frees| - 1];
    if i == |frees| - 1 {
      NoClaim(init, f);
    } else {
      OnlyClaim(init, i, f);
    }
  }

  lemma {:induction false} NoClaim(frees: seq<seq<Id>>, f: Id)
    requires forall j :: 0 <= j < |frees| ==> f !in frees[j]
    ensures Claims(frees, f) == 0
  {
    if frees != [] { NoClaim(frees[..|frees| - 1], f); }
  }

  function ClaimOf(claims: map<Id, nat>, f: Id): nat { if f in claims then claims[f] else 0 }

  /** The counting loop over all sites' frees. */
  method CountClaims(frees: seq<seq<Id>>) returns (claims: map<Id, nat>)
    requires forall i :: 0 <= i < |frees| ==> Distinct(frees[i])
    ensures forall f :: ClaimOf(claims, f) == Claims(frees, f)
  {
    claims := map[];
    var i := 0;
    while i < |frees|
      invariant 0 <= i <= |frees|
      invariant forall f {:trigger ClaimOf(claims, f)} :: ClaimOf(claims, f) == Claims(frees[..i], f)
    {
      var k := 0;
      ghost var before := claims;
      while k < |frees[i]|
        invariant 0 <= k <= |frees[i]|
        invariant forall f {:trigger ClaimOf(claims, f)} :: ClaimOf(claims, f) == ClaimOf(before, f) + if f in frees[i][..k] then 1 else 0
      {
        var f := frees[i][k];
        assert f !in frees[i][..k];
        assert frees[i][..k + 1] == frees[i][..k] + [f];
        ghost var previous := claims;
        claims := claims[f := ClaimOf(claims, f) + 1];
        forall h {:trigger ClaimOf(claims, h)} ensures ClaimOf(claims, h) == ClaimOf(before, h) + if h in frees[i][..k + 1] then 1 else 0 {
          assert ClaimOf(previous, h) == ClaimOf(before, h) + if h in frees[i][..k] then 1 else 0;
        }
        k := k + 1;
      }
      assert frees[i][..k] == frees[i];
      assert frees[..i + 1][..i] == frees[..i];
      forall f {:trigger ClaimOf(claims, f)} ensures ClaimOf(claims, f) == Claims(frees[..i + 1], f) {
        assert ClaimOf(before, f) == Claims(frees[..i], f);
      }
      i := i + 1;
    }
    assert frees[..i] == frees;
  }

  /** A site is converted if each of its frees is claimed by it alone and was not recorded for an escaping site. */
  ghost predicate Convertible(s: Scope, i: nat)
    requires i < |s.frees|
  {
    forall f {:trigger Claims(s.frees, f)} :: f in s.frees[i] ==> Claims(s.frees, f) == 1 && f !in s.recorded
  }

  method IsConvertible(s: Scope, claims: map<Id, nat>, i: nat) returns (ok: bool)
    requires i < |s.frees| && forall f :: ClaimOf(claims, f) == Claims(s.frees, f)
    ensures ok <==> Convertible(s, i)
  {
    var k := 0;
    while k < |s.frees[i]|
      invariant 0 <= k <= |s.frees[i]|
      invariant forall j :: 0 <= j < k ==> Claims(s.frees, s.frees[i][j]) == 1 && s.frees[i][j] !in s.recorded
    {
      var f := s.frees[i][k];
      assert f in s.frees[i] && ClaimOf(claims, f) == Claims(s.frees, f);
      if ClaimOf(claims, f) != 1 || f in s.recorded { return false; }
      k := k + 1;
    }
    return true;
  }

  ghost predicate ErasedBy(s: Scope, n: nat, f: Id)
    requires n <= |s.frees|
  {
    exists i :: 0 <= i < n && Convertible(s, i) && f in s.frees[i]
  }

  /** The conversion loop: the sites converted, and the frees erased in order. */
  method Convert(s: Scope) returns (converted: seq<bool>, erased: seq<Id>)
    requires forall i :: 0 <= i < |s.frees| ==> Distinct(s.frees[i])
    ensures |converted| == |s.frees| && forall i :: 0 <= i < |converted| ==> (converted[i] <==> Convertible(s, i))
    ensures Distinct(erased) && forall f {:trigger f in erased} :: f in erased <==> ErasedBy(s, |s.frees|, f)
  {
    hide Convertible;
    var claims := CountClaims(s.frees);
    converted, erased := [], [];
    var i := 0;
    while i < |s.frees|
      invariant 0 <= i == |converted| <= |s.frees|
      invariant forall j :: 0 <= j < i ==> (converted[j] <==> Convertible(s, j))
      invariant Distinct(erased) && forall f {:trigger f in erased} :: f in erased <==> ErasedBy(s, i, f)
    {
      var ok := IsConvertible(s, claims, i);
      if ok {
        ghost var before := erased;
        var k := 0;
        while k < |s.frees[i]|
          invariant 0 <= k <= |s.frees[i]| && Distinct(erased)
          invariant forall f {:trigger f in erased} :: f in erased <==> f in before || f in s.frees[i][..k]
        {
          var f := s.frees[i][k];
          assert s.frees[i][..k + 1] == s.frees[i][..k] + [f];
          if f !in erased { erased := erased + [f]; }
          k := k + 1;
        }
        assert s.frees[i][..k] == s.frees[i];
        forall f {:trigger f in erased} ensures f in erased <==> ErasedBy(s, i + 1, f) {
          assert f in before <==> ErasedBy(s, i, f);
        }
      }
      converted := converted + [ok];
      i := i + 1;
    }
  }

  // ---------------------------------------------------------------- over the def-use graph

  /** Nobody else's: no other non-escaping site has f among its frees. */
  ghost predicate OwnFree(g: Graph, scope: set<nat>, sites: seq<Id>, x: Id, f: Id)
    requires WellFormed(g)
  {
    forall y {:trigger FreeOf(g, y, f)} :: y in sites && y != x && !Escapes(g, scope, y) ==> !FreeOf(g, y, f)
  }

  lemma ConvertibleMeans(g: Graph, scope: set<nat>, sites: seq<Id>, s: Scope, i: nat)
    requires WellFormed(g) && ValidSites(g, sites) && Discovered(g, scope, sites, |sites|, s) && i < |s.safe|
    ensures Convertible(s, i) <==> forall f {:trigger FreeOf(g, s.safe[i], f)} :: FreeOf(g, s.safe[i], f) ==> OwnFree(g, scope, sites, s.safe[i], f) && !Recorded(g, scope, sites, f)
  {
    hide WellFormed, Escapes, FreeOf, Recorded;
    assert sites[..|sites|] == sites;
    var x := s.safe[i];
    assert FoundFrees(g, x, s.frees[i]);
    forall f | f in s.frees[i] ensures Claims(s.frees, f) == 1 <==> OwnFree(g, scope, sites, x, f) {
      ClaimsMean(g, scope, sites, s, i, f);
    }
  }

  lemma ClaimsMean(g: Graph, scope: set<nat>, sites: seq<Id>, s: Scope, i: nat, f: Id)
    requires WellFormed(g) && ValidSites(g, sites) && Discovered(g, scope, sites, |sites|, s) && i < |s.safe| && f in s.frees[i]
    ensures Claims(s.frees, f) == 1 <==> OwnFree(g, scope, sites, s.safe[i], f)
  {
    hide WellFormed, Escapes, FreeOf;
    assert sites[..|sites|] == sites;
    if j :| 0 <= j < |s.frees| && j != i && f in s.frees[j] {
      if i < j { ClaimedTwice(s.frees, i, j, f); } else { ClaimedTwice(s.frees, j, i, f); }
      assert FoundFrees(g, s.safe[j], s.frees[j]);
      assert s.safe[j] in s.safe && s.safe[j] != s.safe[i];
      assert FreeOf(g, s.safe[j], f);
    } else {
      OnlyClaim(s.frees, i, f);
      forall y | y in sites && y != s.safe[i] && !Escapes(g, scope, y) ensures !FreeOf(g, y, f) {
        assert y in s.safe;
        var j :| 0 <= j < |s.safe| && s.safe[j] == y;
        assert FoundFrees(g, s.safe[j], s.frees[j]);
      }
    }
  }

  /** The site does not escape, and each free of it is nobody else's and was not seen by the walk of an escaping site. */
  ghost predicate Converts(g: Graph, scope: set<nat>, sites: seq<Id>, x: Id)
    requires WellFormed(g)
  {
    && x in sites && !Escapes(g, scope, x)
    && forall f {:trigger FreeOf(g, x, f)} :: FreeOf(g, x, f) ==> OwnFree(g, scope, sites, x, f) && !Recorded(g, scope, sites, f)
  }

  ghost predicate ShareFree(g: Graph, x: Id, y: Id)
    requires WellFormed(g)
  {
    exists f :: FreeOf(g, x, f) && FreeOf(g, y, f)
  }

  /** No free erased is a tracked free of an escaping site. */
  ghost predicate EscapingFreesKept(g: Graph, scope: set<nat>, sites: seq<Id>, erased: seq<Id>)
    requires WellFormed(g)
  {
    forall x, f {:trigger f in erased, FreeOf(g, x, f)} :: x in sites && Escapes(g, scope, x) && f in erased ==> !FreeOf(g, x, f)
  }

  /** Each non-escaping site that shares a free with an escaping one has a free that is not its own, or that an escaping walk saw. */
  ghost predicate SharingIsSeen(g: Graph, scope: set<nat>, sites: seq<Id>)
    requires WellFormed(g)
  {
    forall x, y {:trigger ShareFree(g, x, y)} :: x in sites && y in sites && Escapes(g, scope, x) && !Escapes(g, scope, y) && ShareFree(g, x, y) ==>
      exists h :: FreeOf(g, y, h) && (!OwnFree(g, scope, sites, y, h) || Recorded(g, scope, sites, h))
  }

  /** The walk sees all that happens to x: it is not stored into itself, and no call hands it back. */
  ghost predicate Seen(g: Graph, backs: set<Id>, x: Id)
    requires WellFormed(g)
  {
    x < |g.insts| && g.insts[x].Source? && !SelfStored(g, x) && !HandedBack(g, backs, x)
  }

  /** In the state s a converted allocation is nowhere but in the scope's hands, and what would free it is erased; what would free one that stays on the heap is not. */
  ghost predicate RunsOn(g: Graph, scope: set<nat>, sites: seq<Id>, arena: seq<Id>, erased: seq<Id>, backs: set<Id>, s: State)
    requires WellFormed(g)
  {
    forall x {:trigger Safe(g, s, x)} {:trigger x in sites} :: x in sites && Seen(g, backs, x) ==>
      && (x in arena ==> Safe(g, s, x) && forall f :: Frees(g, s, x, f) ==> f in erased)
      && (x !in arena && !Escapes(g, scope, x) ==> forall f :: Frees(g, s, x, f) ==> f !in erased)
  }

  lemma ConvertedRun(g: Graph, scope: set<nat>, sites: seq<Id>, arena: seq<Id>, erased: seq<Id>, backs: set<Id>, s: State)
    requires WellFormed(g) && Reachable(g, scope, backs, s)
    requires forall x {:trigger x in arena} :: x in arena <==> Converts(g, scope, sites, x)
    requires forall f {:trigger f in erased} :: f in erased <==> exists x :: x in arena && FreeOf(g, x, f)
    requires forall x, f {:trigger f in erased, FreeOf(g, x, f)} :: x in sites && !Escapes(g, scope, x) && x !in arena && f in erased ==> !FreeOf(g, x, f)
    ensures RunsOn(g, scope, sites, arena, erased, backs, s)
  {
    hide WellFormed, Escapes, FreeOf, OwnFree, Recorded, Reachable, Frees, Safe, SelfStored, HandedBack;
    forall x | x in sites && Seen(g, backs, x) && !Escapes(g, scope, x)
      ensures Safe(g, s, x) && forall f :: Frees(g, s, x, f) ==> FreeOf(g, x, f)
    {
      StaysIn(g, scope, backs, s, x);
      forall f | Frees(g, s, x, f) ensures FreeOf(g, x, f) { FreesExactly(g, scope, backs, x, f); }
    }
  }

  /**
    * Discovery and conversion together, over the tracked def-use graph: exactly the sites that convert move to the arena, and
    * exactly their frees are erased. No free of a site left on the heap is among them if that site does not escape, or if its
    * walk saw the free; for escaping sites in general this holds if and only if every sharing is seen, so always without sharing.
    */
  method ConvertScope(g: Graph, scope: set<nat>, sites: seq<Id>) returns (arena: seq<Id>, erased: seq<Id>)
    requires WellFormed(g) && ValidSites(g, sites)
    ensures forall x {:trigger x in arena} :: x in arena <==> Converts(g, scope, sites, x)
    ensures forall f {:trigger f in erased} :: f in erased <==> exists x :: x in arena && FreeOf(g, x, f)
    ensures forall x, f {:trigger f in erased, FreeOf(g, x, f)} :: x in sites && !Escapes(g, scope, x) && x !in arena && f in erased ==> !FreeOf(g, x, f)
    ensures forall f {:trigger f in erased} :: f in erased ==> !Recorded(g, scope, sites, f)
    ensures EscapingFreesKept(g, scope, sites, erased) <==> SharingIsSeen(g, scope, sites)
    ensures (forall x, y :: x in sites && y in sites && Escapes(g, scope, x) && !Escapes(g, scope, y) ==> !ShareFree(g, x, y)) ==>
              EscapingFreesKept(g, scope, sites, erased)
    ensures Distinct(erased)
    ensures forall backs, s {:trigger Reachable(g, scope, backs, s)} :: Reachable(g, scope, backs, s) ==> RunsOn(g, scope, sites, arena, erased, backs, s)
  {
    var s := Discover(g, scope, sites);
    assert sites[..|sites|] == sites;
    FreesDistinct(g, scope, sites, s);
    var converted;
    converted, erased := Convert(s);
    arena := [];
    var i := 0;
    while i < |converted|
      invariant 0 <= i <= |converted|
      invariant forall x {:trigger x in arena} :: x in arena <==> exists j :: 0 <= j < i && s.safe[j] == x && converted[j]
    {
      if converted[i] { arena := arena + [s.safe[i]]; }
      i := i + 1;
    }
    hide Discovered, Convertible, ErasedBy, Distinct, WellFormed, Converts, Recorded, OwnFree, Escapes, EscapingFreesKept, SharingIsSeen, ShareFree, FreeOf;
    ConversionMeans(g, scope, sites, s, arena, erased);
    KeptExactly(g, scope, sites, arena, erased);
    hide Reachable, RunsOn;
    forall backs, r {:trigger Reachable(g, scope, backs, r)} | Reachable(g, scope, backs, r) ensures RunsOn(g, scope, sites, arena, erased, backs, r) {
      ConvertedRun(g, scope, sites, arena, erased, backs, r);
    }
  }

  /** A free of an escaping site goes exactly with a converted site that shares it. */
  lemma KeptExactly(g: Graph, scope: set<nat>, sites: seq<Id>, arena: seq<Id>, erased: seq<Id>)
    requires WellFormed(g)
    requires forall x {:trigger x in arena} :: x in arena <==> Converts(g, scope, sites, x)
    requires forall f {:trigger f in erased} :: f in erased <==> exists x :: x in arena && FreeOf(g, x, f)
    ensures EscapingFreesKept(g, scope, sites, erased) <==> SharingIsSeen(g, scope, sites)
    ensures (forall x, y :: x in sites && y in sites && Escapes(g, scope, x) && !Escapes(g, scope, y) ==> !ShareFree(g, x, y)) ==>
              EscapingFreesKept(g, scope, sites, erased)
  {
    hide WellFormed, Escapes, FreeOf, OwnFree, Recorded;
    if EscapingFreesKept(g, scope, sites, erased) {
      forall x, y | x in sites && y in sites && Escapes(g, scope, x) && !Escapes(g, scope, y) && ShareFree(g, x, y)
        ensures exists h :: FreeOf(g, y, h) && (!OwnFree(g, scope, sites, y, h) || Recorded(g, scope, sites, h))
      {
        var f :| FreeOf(g, x, f) && FreeOf(g, y, f);
        assert f !in erased;
        assert y !in arena;
      }
    }
    if !EscapingFreesKept(g, scope, sites, erased) {
      var x, f :| x in sites && Escapes(g, scope, x) && f in erased && FreeOf(g, x, f);
      var y :| y in arena && FreeOf(g, y, f);
      assert ShareFree(g, x, y);
    }
  }

  lemma FreesDistinct(g: Graph, scope: set<nat>, sites: seq<Id>, s: Scope)
    requires WellFormed(g) && ValidSites(g, sites) && Discovered(g, scope, sites, |sites|, s)
    ensures forall i :: 0 <= i < |s.frees| ==> Distinct(s.frees[i])
  {
    forall i | 0 <= i < |s.frees| ensures Distinct(s.frees[i]) { assert FoundFrees(g, s.safe[i], s.frees[i]); }
  }

  lemma ConversionMeans(g: Graph, scope: set<nat>, sites: seq<Id>, s: Scope, arena: seq<Id>, erased: seq<Id>)
    requires WellFormed(g) && ValidSites(g, sites) && Discovered(g, scope, sites, |sites|, s)
    requires forall x {:trigger x in arena} :: x in arena <==> exists j :: 0 <= j < |s.safe| && s.safe[j] == x && Convertible(s, j)
    requires forall f {:trigger f in erased} :: f in erased <==> ErasedBy(s, |s.frees|, f)
    ensures forall x {:trigger x in arena} :: x in arena <==> Converts(g, scope, sites, x)
    ensures forall f {:trigger f in erased} :: f in erased <==> exists x :: x in arena && FreeOf(g, x, f)
    ensures forall x, f {:trigger f in erased, FreeOf(g, x, f)} :: x in sites && !Escapes(g, scope, x) && x !in arena && f in erased ==> !FreeOf(g, x, f)
    ensures forall f {:trigger f in erased} :: f in erased ==> !Recorded(g, scope, sites, f)
  {
    hide WellFormed, Escapes, FreeOf, Convertible, OwnFree, Recorded;
    assert sites[..|sites|] == sites;
    forall x {:trigger x in arena} ensures x in arena <==> Converts(g, scope, sites, x) {
      if x in s.safe {
        var i :| 0 <= i < |s.safe| && s.safe[i] == x;
        ConvertibleMeans(g, scope, sites, s, i);
      }
    }
    forall f {:trigger f in erased} ensures f in erased <==> exists x :: x in arena && FreeOf(g, x, f) {
      if f in erased {
        var i :| 0 <= i < |s.frees| && Convertible(s, i) && f in s.frees[i];
        assert FoundFrees(g, s.safe[i], s.frees[i]);
        assert s.safe[i] in arena;
      }
      if x :| x in arena && FreeOf(g, x, f) {
        var i :| 0 <= i < |s.safe| && s.safe[i] == x && Convertible(s, i);
        assert FoundFrees(g, s.safe[i], s.frees[i]);
      }
    }
    forall x, f {:trigger f in erased, FreeOf(g, x, f)} | x in sites && !Escapes(g, scope, x) && x !in arena && f in erased
      ensures !FreeOf(g, x, f)
    {
      var y :| y in arena && FreeOf(g, y, f);
      assert Converts(g, scope, sites, y);
      OwnMeans(g, scope, sites, y, f, x);
    }
    forall f {:trigger f in erased} | f in erased ensures !Recorded(g, scope, sites, f) {
      var x :| x in arena && FreeOf(g, x, f);
      assert Converts(g, scope, sites, x);
    }
  }

  lemma OwnMeans(g: Graph, scope: set<nat>, sites: seq<Id>, y: Id, f: Id, x: Id)
    requires WellFormed(g) && OwnFree(g, scope, sites, y, f) && x in sites && x != y && !Escapes(g, scope, x)
    ensures !FreeOf(g, x, f)
  {}

  // ---------------------------------------------------------------- what an early return misses

  /** Allocations 0 and 1 meet in phi 3, which 4 frees; the first use of 1 is 2, which lets it out. */
  function SharedFree(): (g: Graph)
    ensures WellFormed(g) && |g.insts| == 5
  {
    Graph([Source, Source, OtherUse([1]), Phi([0, 1]), Call(Free, [3])], [[3], [2, 3], [], [4], []])
  }

  lemma SharedFreeFacts()
    ensures !Escapes(SharedFree(), {}, 0) && FreeOf(SharedFree(), 0, 4)
    ensures Escapes(SharedFree(), {}, 1) && FreeOf(SharedFree(), 1, 4)
    ensures SeenFrees(SharedFree(), {}, 1) == []
  {
    SharedFreeSteps();
    var g := SharedFree();
    assert Escape(g, {}, 1, 2) && Scan(g, {}, Walk({1}, [], []), 1, 0) == (true, Walk({1}, [], []));
    hide WellFormed, TracksVia, SharedFree, Escape;
    SharedFreeTracked(g);
    forall v, u | Tracked(g, 0, v) ensures !Escape(g, {}, v, u) {
      ClosureInside(TrackSteps(g), 0, v, {0, 3});
    }
  }

  lemma SharedFreeTracked(g: Graph)
    requires WellFormed(g) && TracksVia(g, 0, 3, 3) && TracksVia(g, 1, 3, 3)
    requires forall a, u, b {:trigger TracksVia(g, a, u, b)} :: a in {0, 3} && TracksVia(g, a, u, b) ==> b == 3
    ensures Tracked(g, 0, 3) && Tracked(g, 1, 3) && Tracked(g, 1, 1)
    ensures forall a, b {:trigger TrackSteps(g)(a, b)} :: a in {0, 3} && TrackSteps(g)(a, b) ==> b in {0, 3}
  {
    hide WellFormed, TracksVia, Along;
    assert Tracks(g, 0, 3) && Tracks(g, 1, 3);
    ClosureSelf(TrackSteps(g), 0);
    ClosureSelf(TrackSteps(g), 1);
    ClosureStep(TrackSteps(g), 0, 0, 3);
    ClosureStep(TrackSteps(g), 1, 1, 3);
  }

  /** Step by step: 0 and 1 go to 3 and 3 goes nowhere; neither of 0 and 3 escapes at any user. */
  lemma SharedFreeSteps()
    ensures TracksVia(SharedFree(), 0, 3, 3) && TracksVia(SharedFree(), 1, 3, 3) && FreesOperand(SharedFree(), 3, 4)
    ensures forall a, u, b {:trigger TracksVia(SharedFree(), a, u, b)} :: a in {0, 3} && TracksVia(SharedFree(), a, u, b) ==> b == 3
    ensures forall v, u {:trigger Escape(SharedFree(), {}, v, u)} :: v in {0, 3} ==> !Escape(SharedFree(), {}, v, u)
  {
    var g := SharedFree();
    hide Reload, SlotLeaks, WellFormed;
    forall a: Id, u: Id {:trigger Uses(g, a, u)} | a in {0, 3} && Uses(g, a, u) ensures u == (if a == 0 then 3 else 4) {
      UserIndex(g, a, u);
    }
  }

  /** The escaping walk returns before it sees the shared free, so the free is erased although it is also the escaping allocation's. */
  method EarlyEscapeLosesFree() returns (erased: seq<Id>)
    ensures 4 in erased && FreeOf(SharedFree(), 1, 4) && Escapes(SharedFree(), {}, 1) && !SharingIsSeen(SharedFree(), {}, [0, 1])
  {
    hide WellFormed, Escapes, FreeOf, SharedFree, SeenFrees, SharingIsSeen;
    SharedFreeFacts();
    var arena;
    arena, erased := ConvertScope(SharedFree(), {}, [0, 1]);
    forall f ensures !Recorded(SharedFree(), {}, [0, 1], f) {
      assert forall x :: x in [0, 1] ==> x == 0 || x == 1;
    }
    forall f | FreeOf(SharedFree(), 0, f) ensures OwnFree(SharedFree(), {}, [0, 1], 0, f) {}
    assert 0 in [0, 1] && 1 in [0, 1];
    assert Converts(SharedFree(), {}, [0, 1], 0);
    assert 0 in arena && 4 in erased;
    assert !EscapingFreesKept(SharedFree(), {}, [0, 1], erased);
  }
}
