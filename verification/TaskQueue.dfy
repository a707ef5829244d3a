/** The pool's task queue: tasks leave by priority, and clearing frees every queued task once. */
module TaskQueues {

  /** The runnables are named by numbers; a larger priority number goes first. */
  datatype Task = Task(runnable: nat, priority: nat)

  datatype Option<T> = None | Some(value: T)

  /** The position of a task that no other precedes. */
  function Best(q: seq<Task>): (b: nat)
    requires |q| > 0
    ensures b < |q| && forall i :: 0 <= i < |q| ==> q[i].priority <= q[b].priority
  {
    if |q| == 1 then 0
    else
      var b := Best(q[1..]);
      assert forall i :: 1 <= i < |q| ==> q[i] == q[1..][i - 1];
      if q[0].priority >= q[b + 1].priority then 0 else b + 1
  }

  /** A queued task that no queued task exceeds. */
  ghost predicate Highest(t: Task, q: seq<Task>) {
    t in q && forall u :: u in q ==> u.priority <= t.priority
  }

  function Removed(q: seq<Task>, i: nat): seq<Task>
    requires i < |q|
  {
    q[..i] + q[i + 1..]
  }

  lemma RemovedCounts(q: seq<Task>, i: nat)
    requires i < |q|
    ensures multiset(q) == multiset(Removed(q, i)) + multiset{q[i]}
  {
    assert q == q[..i] + [q[i]] + q[i + 1..];
  }

  lemma RemovedInside(q: seq<Task>, i: nat)
    requires i < |q|
    ensures forall u :: u in Removed(q, i) ==> u in q
  {
  }

  /** Tasks that leave in this order leave by priority. */
  ghost predicate ByPriority(q: seq<Task>) {
    forall i, j :: 0 <= i < j < |q| ==> q[i].priority >= q[j].priority
  }

  class TaskQueue {
    var queue: seq<Task>

    constructor ()
      ensures queue == []
    {
      queue := [];
    }

    method Push(runnable: nat, priority: nat)
      modifies this
      ensures queue == old(queue) + [Task(runnable, priority)]
    {
      queue := queue + [Task(runnable, priority)];
    }

    /** Front shows a task of highest priority, or nothing. */
    method Front() returns (r: Option<nat>)
      ensures r.None? <==> queue == []
      ensures r.Some? ==> exists t :: Highest(t, queue) && r.value == t.runnable
      ensures r == if queue == [] then None else Some(queue[Best(queue)].runnable)
    {
      if queue == [] {
        return None;
      }
      assert Highest(queue[Best(queue)], queue);
      r := Some(queue[Best(queue)].runnable);
    }

    /** Pop removes what Front shows, and nothing from an empty queue. */
    method Pop()
      modifies this
      ensures old(queue) == [] ==> queue == []
      ensures old(queue) != [] ==>
        exists t :: Highest(t, old(queue)) && multiset(old(queue)) == multiset(queue) + multiset{t}
      ensures old(queue) != [] ==> queue == Removed(old(queue), Best(old(queue)))
    {
      if queue == [] {
        return;
      }
      RemovedCounts(queue, Best(queue));
      assert Highest(queue[Best(queue)], queue);
      queue := Removed(queue, Best(queue));
    }

    /** Clear frees each queued task exactly once, by priority. */
    method Clear() returns (ghost freed: seq<Task>)
      modifies this
      ensures queue == [] && multiset(freed) == multiset(old(queue)) && ByPriority(freed)
    {
      freed := [];
      while queue != []
        invariant multiset(freed) + multiset(queue) == multiset(old(queue))
        invariant ByPriority(freed)
        invariant forall t, u :: t in freed && u in queue ==> t.priority >= u.priority
        decreases |queue|
      {
        ghost var before, b := queue, Best(queue);
        RemovedCounts(before, b);
        RemovedInside(before, b);
        queue := Removed(queue, Best(queue));
        assert multiset(freed + [before[b]]) == multiset(freed) + multiset{before[b]};
        freed := freed + [before[b]];
      }
    }
  }
}
