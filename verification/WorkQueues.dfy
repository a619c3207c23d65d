/** The thread pool's deques as submit, try_steal_any and worker_loop update them, one call at a time. */
module WorkQueues {
  import opened Options

  const COUNTER_MODULUS: nat := 0x1_0000_0000_0000_0000

  /** The tasks in all the deques. */
  function Pooled(queues: seq<seq<nat>>): multiset<nat> {
    if queues == [] then multiset{} else multiset(queues[0]) + Pooled(queues[1..])
  }

  /** Replacing one deque replaces its tasks in the pool. */
  lemma {:induction false} PooledUpdate(queues: seq<seq<nat>>, q: nat, queue: seq<nat>)
    requires q < |queues|
    ensures multiset(queues[q]) <= Pooled(queues)
    ensures Pooled(queues[q := queue]) == Pooled(queues) - multiset(queues[q]) + multiset(queue)
  {
    if q > 0 {
      assert queues[q := queue][0] == queues[0] && queues[q := queue][1..] == queues[1..][q - 1 := queue];
      PooledUpdate(queues[1..], q - 1, queue);
    } else {
      assert queues[q := queue][1..] == queues[1..];
    }
  }

  /** Popping the front of a deque takes exactly that task out of the pool. */
  lemma PooledPopFront(queues: seq<seq<nat>>, q: nat)
    requires q < |queues| && queues[q] != []
    ensures Pooled(queues) == Pooled(queues[q := queues[q][1..]]) + multiset{queues[q][0]}
  {
    hide Pooled;
    PooledUpdate(queues, q, queues[q][1..]);
    assert queues[q] == [queues[q][0]] + queues[q][1..];
  }

  /** Popping the back of a deque takes exactly that task out of the pool. */
  lemma PooledPopBack(queues: seq<seq<nat>>, q: nat)
    requires q < |queues| && queues[q] != []
    ensures Pooled(queues) == Pooled(queues[q := queues[q][..|queues[q]| - 1]]) + multiset{queues[q][|queues[q]| - 1]}
  {
    hide Pooled;
    var last := |queues[q]| - 1;
    PooledUpdate(queues, q, queues[q][..last]);
    assert queues[q] == queues[q][..last] + [queues[q][last]];
  }

  /** The i-th deque a scan of n deques visits when it begins at start. */
  function Victim(start: nat, i: nat, n: nat): (q: nat)
    requires n > 0
    ensures q < n
  {
    (start + i) % n
  }

  /** Going round n places once at most. */
  lemma Wraps(x: nat, n: nat)
    requires x < 2 * n
    ensures x % n == if x < n then x else x - n
  {
    var d, m := x / n, x % n;
    assert x == n * d + m;
    assert d >= 2 ==> n * d >= n * 2;
  }

  /** The scan begins where it is told and goes up one deque at a time, from the last to the first. */
  lemma VictimGoesRound(start: nat, i: nat, n: nat)
    requires start < n && i < n
    ensures Victim(start, 0, n) == start
    ensures Victim(start, i + 1, n) == if Victim(start, i, n) == n - 1 then 0 else Victim(start, i, n) + 1
  {
    Wraps(start, n);
    Wraps(start + i, n);
    Wraps(start + i + 1, n);
  }

  /** Every deque is some step of the scan. */
  lemma VictimCovers(start: nat, q: nat, n: nat) returns (i: nat)
    requires start < n && q < n
    ensures i < n && Victim(start, i, n) == q
  {
    i := if q >= start then q - start else q + n - start;
    Wraps(start + i, n);
  }

  /** A scan of n steps visits every deque. */
  lemma ScanCovers(queues: seq<seq<nat>>, start: nat)
    requires start < |queues| && forall j: nat :: j < |queues| ==> queues[Victim(start, j, |queues|)] == []
    ensures Pooled(queues) == multiset{}
  {
    forall q | 0 <= q < |queues| ensures queues[q] == [] {
      var j := VictimCovers(start, q, |queues|);
    }
    PooledEmpty(queues);
  }

  /** Every deque is empty exactly when no task is pooled. */
  lemma {:induction false} PooledEmpty(queues: seq<seq<nat>>)
    ensures Pooled(queues) == multiset{} <==> forall q :: 0 <= q < |queues| ==> queues[q] == []
  {
    if queues != [] {
      PooledEmpty(queues[1..]);
      assert forall q :: 0 <= q < |queues[1..]| ==> queues[1..][q] == queues[q + 1];
      assert queues[0] != [] ==> queues[0][0] in Pooled(queues);
      assert Pooled(queues[1..]) <= Pooled(queues);
      if Pooled(queues) == multiset{} {
        assert Pooled(queues[1..]) == multiset{};
        forall q | 0 <= q < |queues| ensures queues[q] == [] {
          assert q > 0 ==> queues[q] == queues[1..][q - 1];
        }
      }
    }
  }

  class ThreadPool {
    var queues: seq<seq<nat>>
    var submitCounter: nat

    constructor (workers: nat)
      ensures |queues| == workers && submitCounter == 0
      ensures forall q :: 0 <= q < workers ==> queues[q] == []
    {
      queues := seq(workers, _ => []);
      submitCounter := 0;
    }

    /** Round robin; critical and high priority tasks (0 and 1) go to the front of the deque. */
    method Submit(task: nat, priority: int)
      requires |queues| > 0
      modifies this
      ensures submitCounter == (old(submitCounter) + 1) % COUNTER_MODULUS
      ensures var target := old(submitCounter) % |old(queues)|;
              queues == old(queues)[target := if priority < 2 then [task] + old(queues)[target] else old(queues)[target] + [task]]
      ensures Pooled(queues) == Pooled(old(queues)) + multiset{task}
    {
      hide Pooled;
      var idx := submitCounter;
      submitCounter := (submitCounter + 1) % COUNTER_MODULUS;
      var target := idx % |queues|;
      ghost var before := queues;
      var queue := if priority < 2 then [task] + queues[target] else queues[target] + [task];
      queues := queues[target := queue];
      PooledUpdate(before, target, queue);
      assert multiset(queue) == multiset(before[target]) + multiset{task};
    }

    /** A scan that starts anywhere takes the back of the first non-empty deque, and finds none only if all are empty. */
    method TryStealAny() returns (task: Option<nat>)
      modifies this
      ensures task.None? <==> Pooled(old(queues)) == multiset{}
      ensures task.None? ==> queues == old(queues)
      ensures task.Some? ==> exists i: nat :: TakenFirst(old(queues), old(submitCounter), i, task.value, queues)
      ensures task.Some? ==> Pooled(old(queues)) == Pooled(queues) + multiset{task.value}
    {
      if |queues| <= 0 {
        return None;
      }
      hide Victim, Pooled, TakenFirst, Popped;
      var start := submitCounter % |queues|;
      submitCounter := (submitCounter + 1) % COUNTER_MODULUS;
      for i := 0 to |queues|
        invariant queues == old(queues)
        invariant forall j: nat :: j < i ==> queues[Victim(start, j, |queues|)] == []
      {
        var victim := Victim(start, i, |queues|);
        if queues[victim] != [] {
          var queue := queues[victim];
          task := Some(queue[|queue| - 1]);
          TakesFirst(queues, old(submitCounter), i, victim);
          queues := queues[victim := queue[..|queue| - 1]];
          return;
        }
      }
      task := None;
      ScanCovers(queues, start);
    }

    /** What an idle worker runs next: the front of its own deque, else the back of another's. */
    method NextTask(id: nat, draw: nat) returns (task: Option<nat>)
      requires id < |queues|
      modifies this
      ensures task.None? <==> Pooled(old(queues)) == multiset{}
      ensures task.None? ==> queues == old(queues)
      ensures old(queues)[id] != [] ==> task == Some(old(queues)[id][0]) && queues == old(queues)[id := old(queues)[id][1..]]
      ensures task.Some? && old(queues)[id] == [] ==> exists i: nat :: TakenFirst(old(queues), draw, i, task.value, queues)
      ensures task.Some? ==> Pooled(old(queues)) == Pooled(queues) + multiset{task.value}
      ensures submitCounter == old(submitCounter)
    {
      if queues[id] != [] {
        PooledPopFront(queues, id);
        task := Some(queues[id][0]);
        queues := queues[id := queues[id][1..]];
        return;
      }
      task := None;
      if |queues| > 1 {
        hide Victim, Pooled, TakenFirst, Popped;
        var start := draw % |queues|;
        for i := 0 to |queues|
          invariant queues == old(queues)
          invariant forall j: nat :: j < i ==> queues[Victim(start, j, |queues|)] == []
        {
          var victim := Victim(start, i, |queues|);
          if victim != id && queues[victim] != [] {
            var queue := queues[victim];
            TakesFirst(queues, draw, i, victim);
            task := Some(queue[|queue| - 1]);
            queues := queues[victim := queue[..|queue| - 1]];
            return;
          }
        }
        ScanCovers(queues, start);
      } else {
        PooledEmpty(queues);
      }
    }
  }

  /** The back of deque q was taken, and nothing else changed. */
  predicate Popped(before: seq<seq<nat>>, q: nat, task: nat, after: seq<seq<nat>>) {
    q < |before| && before[q] != [] && task == before[q][|before[q]| - 1] && after == before[q := before[q][..|before[q]| - 1]]
  }

  /** The deque taken from is the first non-empty one, going round from the one the counter points at. */
  predicate TakenFirst(before: seq<seq<nat>>, counter: nat, i: nat, task: nat, after: seq<seq<nat>>) {
    && 0 < |before|
    && i < |before|
    && (forall j: nat :: j < i ==> before[Victim(counter % |before|, j, |before|)] == [])
    && Popped(before, Victim(counter % |before|, i, |before|), task, after)
  }

  lemma TakesFirst(before: seq<seq<nat>>, counter: nat, i: nat, q: nat)
    requires 0 < |before| && i < |before| && q == Victim(counter % |before|, i, |before|) && before[q] != []
    requires forall j: nat :: j < i ==> before[Victim(counter % |before|, j, |before|)] == []
    ensures
      var after := before[q := before[q][..|before[q]| - 1]];
      && TakenFirst(before, counter, i, before[q][|before[q]| - 1], after)
      && Pooled(before) == Pooled(after) + multiset{before[q][|before[q]| - 1]}
  {
    hide Victim, Pooled;
    PooledPopBack(before, q);
  }
}
