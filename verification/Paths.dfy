/** Paths along a step relation, and what they reach. */
module Paths {

  ghost predicate Along<T(!new)>(step: (T, T) -> bool, p: seq<T>) {
    forall i {:trigger p[i]} :: 0 <= i < |p| - 1 ==> step(p[i], p[i + 1])
  }

  ghost predicate PathTo<T(!new)>(step: (T, T) -> bool, p: seq<T>, a: T, b: T) {
    |p| > 0 && p[0] == a && p[|p| - 1] == b && Along(step, p)
  }

  /** b is reached from a by zero or more steps. */
  ghost predicate Closure<T(!new)>(step: (T, T) -> bool, a: T, b: T) { exists p :: PathTo(step, p, a, b) }

  lemma ClosureSelf<T(!new)>(step: (T, T) -> bool, a: T)
    ensures Closure(step, a, a)
  {
    assert PathTo(step, [a], a, a);
  }

  lemma ClosureStep<T(!new)>(step: (T, T) -> bool, a: T, b: T, c: T)
    requires Closure(step, a, b) && step(b, c)
    ensures Closure(step, a, c)
  {
    var p :| PathTo(step, p, a, b);
    var q := p + [c];
    forall i {:trigger q[i]} | 0 <= i < |q| - 1 ensures step(q[i], q[i + 1]) {
      if i < |p| - 1 { assert step(p[i], p[i + 1]); }
    }
    assert PathTo(step, q, a, c);
  }

  /** What contains a and is closed under steps contains all that a reaches. */
  lemma ClosureInside<T(!new)>(step: (T, T) -> bool, a: T, b: T, s: set<T>)
    requires a in s && Closure(step, a, b)
    requires forall x, y {:trigger step(x, y)} :: x in s && step(x, y) ==> y in s
    ensures b in s
  {
    var p :| PathTo(step, p, a, b);
    PathInside(step, p, s);
  }

  lemma {:induction false} PathInside<T(!new)>(step: (T, T) -> bool, p: seq<T>, s: set<T>)
    requires |p| > 0 && Along(step, p) && p[0] in s
    requires forall x, y {:trigger step(x, y)} :: x in s && step(x, y) ==> y in s
    ensures p[|p| - 1] in s
  {
    if |p| > 1 {
      var q := p[..|p| - 1];
      forall i {:trigger q[i]} | 0 <= i < |q| - 1 ensures step(q[i], q[i + 1]) { assert step(p[i], p[i + 1]); }
      PathInside(step, q, s);
      assert step(p[|p| - 2], p[|p| - 1]);
    }
  }

  /** Every node on a path is reached too. */
  lemma PathReaches<T(!new)>(step: (T, T) -> bool, p: seq<T>, a: T, b: T, i: nat)
    requires PathTo(step, p, a, b) && i < |p|
    ensures Closure(step, a, p[i])
  {
    var q := p[..i + 1];
    forall j {:trigger q[j]} | 0 <= j < |q| - 1 ensures step(q[j], q[j + 1]) { assert step(p[j], p[j + 1]); }
    assert PathTo(step, q, a, p[i]);
  }
}
