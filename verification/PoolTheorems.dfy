/** The guarantees of the worker pool, in every state of every run. */
module PoolTheorems {
  import opened Pool
  import opened PoolInvariant

  ghost predicate Reached(s: Config, states: seq<Config>, actions: seq<Action>) {
    IsRun(states, actions) && s in states
  }

  lemma ReachedInv(s: Config, states: seq<Config>, actions: seq<Action>)
    requires Reached(s, states, actions)
    ensures Inv(s)
  {
    var k: nat :| k < |states| && states[k] == s;
    RunInv(states, actions, k);
  }

  /** No lost wakeups: while the pool is not terminated and some worker sleeps un-signalled, the
      queued tasks are at most the workers awake without a task, plus one if an Execute stands
      between its push and its signal. */
  lemma NoLostWakeups(s: Config, states: seq<Config>, actions: seq<Action>)
    requires Reached(s, states, actions)
    requires s.state != TERMINATED && SomeWaiting(s.workers)
    ensures |s.queue| <= AwakeCount(s.workers) + Pending(s)
    ensures !s.holder.ByCaller? ==> |s.queue| <= AwakeCount(s.workers)
  {
    ReachedInv(s, states, actions);
  }

  lemma {:induction false} AwakeExists(workers: seq<WorkerPc>)
    requires AwakeCount(workers) > 0
    ensures exists w: nat :: w < |workers| && Awake(workers[w])
  {
    if Awake(workers[0]) {
    } else {
      AwakeExists(workers[1..]);
      var w: nat :| w < |workers[1..]| && Awake(workers[1..][w]);
      assert Awake(workers[w + 1]);
    }
  }

  predicate Live(pc: WorkerPc) {
    pc != NotStarted && !Gone(pc)
  }

  /** Queued work never coexists with all live workers asleep, once Execute has let go of the mutex. */
  lemma QueuedWorkHasAWorker(s: Config, states: seq<Config>, actions: seq<Action>)
    requires Reached(s, states, actions)
    requires s.state != TERMINATED && !s.holder.ByCaller? && s.queue != []
    requires exists w: nat :: w < |s.workers| && Live(s.workers[w])
    ensures exists w: nat :: w < |s.workers| && Live(s.workers[w]) && s.workers[w] != Waiting
  {
    if SomeWaiting(s.workers) {
      NoLostWakeups(s, states, actions);
      AwakeExists(s.workers);
      var w: nat :| w < |s.workers| && Awake(s.workers[w]);
      assert Live(s.workers[w]) && s.workers[w] != Waiting;
    }
  }

  lemma {:induction false} StaysAwakened(states: seq<Config>, actions: seq<Action>, j: nat, k: nat)
    requires IsRun(states, actions) && j <= k < |states|
    requires Awakened(states[j].ctl)
    ensures Awakened(states[k].ctl)
  {
    if j < k {
      StaysAwakened(states, actions, j, k - 1);
      assert Follows(states, actions, k - 1);
    }
  }

  /** After WakeuoAllThread no worker sleeps, and none ever goes to sleep again. */
  lemma NoSleepAfterBroadcast(states: seq<Config>, actions: seq<Action>, j: nat, k: nat)
    requires IsRun(states, actions) && j <= k < |states|
    requires Awakened(states[j].ctl)
    ensures forall w: nat :: w < |states[k].workers| ==>
      states[k].workers[w] != Waiting && states[k].workers[w] != EnterWait
  {
    StaysAwakened(states, actions, j, k);
    RunInv(states, actions, k);
  }

  lemma HeadOccurs(q: seq<nat>)
    ensures |q| > 0 ==> Times(q, q[0]) > 0
  {
  }

  /** A sequence in which each of 0..n-1 occurs once and nothing else has length n. */
  lemma {:induction false} OnceEach(q: seq<nat>, n: nat)
    requires forall k: nat :: Times(q, k) == if k < n then 1 else 0
    ensures |q| == n
  {
    if n == 0 {
      HeadOccurs(q);
    } else {
      assert Times(q, n - 1) == 1;
      var i: nat :| i < |q| && q[i] == n - 1;
      var rest := q[..i] + q[i + 1..];
      forall k: nat
        ensures Times(rest, k) == if k < n - 1 then 1 else 0
      {
        RemoveAt(q, i, k);
      }
      OnceEach(rest, n - 1);
    }
  }

  /** Graceful shutdown drains: when WaitExit has returned, the queue is empty, every task that
      Execute accepted has run exactly once, nothing was discarded, and both counters say so. */
  lemma GracefulShutdownDrains(s: Config, states: seq<Config>, actions: seq<Action>)
    requires Reached(s, states, actions)
    requires s.ctl == FinalWrite || s.ctl == Done(false)
    ensures s.queue == [] && s.discarded == []
    ensures forall k: nat :: Times(s.ran, k) == if k < s.accepted then 1 else 0
    ensures |s.ran| == s.accepted == s.finish
    ensures s.holder == Free ==> s.count == 0
  {
    ReachedInv(s, states, actions);
    forall k: nat
      ensures Times(s.ran, k) == if k < s.accepted then 1 else 0
    {
      CarriedNone(s.workers, k);
      assert Occurrences(s, k) == if k < s.accepted then 1 else 0;
    }
    OnceEach(s.ran, s.accepted);
    UnreportedNone(s.workers);
  }

  /** Immediate shutdown partitions the work: when Clear has ended, every accepted task was either
      run exactly once or discarded exactly once. */
  lemma ImmediateShutdownPartitions(s: Config, states: seq<Config>, actions: seq<Action>)
    requires Reached(s, states, actions)
    requires s.ctl == Resetting || s.ctl == Done(true)
    ensures s.queue == []
    ensures forall k: nat :: Times(s.ran, k) + Times(s.discarded, k) == if k < s.accepted then 1 else 0
  {
    ReachedInv(s, states, actions);
    forall k: nat
      ensures Times(s.ran, k) + Times(s.discarded, k) == if k < s.accepted then 1 else 0
    {
      CarriedNone(s.workers, k);
      assert Occurrences(s, k) == if k < s.accepted then 1 else 0;
    }
  }

  /** From the broadcast on, and so throughout WaitExit and Clear, no Execute accepts a task. */
  lemma NothingAcceptedAfterBroadcast(s: Config, a: Action, states: seq<Config>, actions: seq<Action>)
    requires Reached(s, states, actions) && Enabled(s, a)
    requires Locked(s.ctl)
    ensures Step(s, a).accepted == s.accepted
    ensures a.Call? ==> Step(s, a).queue == s.queue
  {
    ReachedInv(s, states, actions);
  }

  /** With the mutex free, the task count is the queue length plus what Clear has dropped; it is
      the queue length exactly until Clear drops the first task. */
  lemma CountIsQueueLength(s: Config, states: seq<Config>, actions: seq<Action>)
    requires Reached(s, states, actions)
    requires s.holder == Free && s.ctl != Done(true)
    ensures s.count == |s.queue| + |s.discarded|
    ensures s.count == |s.queue| <==> s.discarded == []
    ensures s.discarded != [] ==> s.ctl == Clearing || s.ctl == Resetting
  {
    ReachedInv(s, states, actions);
  }

  /** A worker that has seen a task under the mutex always finds it to pop. */
  lemma PopIsAlwaysPossible(s: Config, w: nat, states: seq<Config>, actions: seq<Action>)
    requires Reached(s, states, actions)
    requires w < |s.workers| && s.workers[w].Counted?
    ensures exists pick: nat :: WorkerEnabled(s, w, pick)
  {
    ReachedInv(s, states, actions);
    assert WorkerSees(s.workers[w], s.state, s.queue);
    var pick: nat :| pick < |s.queue| && s.queue[pick] == s.workers[w].t;
    assert WorkerEnabled(s, w, pick);
  }

  // ---------------------------------------------------------------- a run in which the count is wrong

  ghost predicate Reachable(s: Config) {
    exists states, actions :: IsRun(states, actions) && states[|actions|] == s
  }

  lemma Go(s: Config, a: Action)
    requires Reachable(s) && Enabled(s, a)
    ensures Reachable(Step(s, a))
  {
    var states, actions :| IsRun(states, actions) && states[|actions|] == s;
    Extended(states, actions, a);
    var more, steps := states + [Step(s, a)], actions + [a];
    assert IsRun(more, steps) && more[|steps|] == Step(s, a);
  }

  /** A step to a state that is written out. */
  lemma To(s: Config, a: Action, t: Config)
    requires Reachable(s) && Enabled(s, a) && Step(s, a) == t
    ensures Reachable(t)
  {
    Go(s, a);
  }

  lemma OneWorkerStarted()
    ensures Reachable(Config(RUNNING, Free, [WantLock], [Idle], Ready, [], 0, 0, 0, [], []))
  {
    var s0 := Config(RUNNING, Free, [NotStarted], [Idle], Spawning(0), [], 0, 0, 0, [], []);
    assert Initial(s0) && IsRun([s0], []) && [s0][0] == s0;
    var s1 := s0.(workers := [WantLock], ctl := Spawning(1));
    To(s0, Control(false, 0), s1);
    To(s1, Control(false, 0), s1.(ctl := Ready));
  }

  /** One worker is started, and one Execute is called. */
  lemma OneTaskQueued()
    ensures Reachable(Config(RUNNING, Free, [WantLock], [Idle], Ready, [0], 1, 0, 1, [], []))
  {
    OneWorkerStarted();
    var s0 := Config(RUNNING, Free, [WantLock], [Idle], Ready, [], 0, 0, 0, [], []);
    var s1 := s0.(callers := [CallerWantsLock(false)]);
    To(s0, Call(0, false, {}), s1);
    var s2 := s1.(callers := [CallerChecks(false)], holder := ByCaller(0));
    To(s1, Call(0, false, {}), s2);
    OneTaskPushed(s2);
  }

  lemma OneTaskPushed(s: Config)
    requires Reachable(s) && s.callers == [CallerChecks(false)] && s.workers == [WantLock] && s.state == RUNNING
    requires s.queue == [] && s.count == 0 && s.accepted == 0
    ensures Reachable(s.(callers := [Idle], holder := Free, queue := [0], count := 1, accepted := 1))
  {
    var s1 := s.(callers := [Pushing]);
    To(s, Call(0, false, {}), s1);
    var s2 := s1.(callers := [Counting], queue := [0], accepted := 1);
    To(s1, Call(0, false, {}), s2);
    var s3 := s2.(callers := [Signalling], count := 1);
    To(s2, Call(0, false, {}), s3);
    OneTaskSignalled(s3);
  }

  lemma OneTaskSignalled(s: Config)
    requires Reachable(s) && s.callers == [Signalling] && s.workers == [WantLock]
    ensures Reachable(s.(callers := [Idle], holder := Free))
  {
    var s1 := s.(callers := [Returning(true)]);
    assert Wake(s.workers, {}) == s.workers;
    To(s, Call(0, false, {}), s1);
    To(s1, Call(0, false, {}), s1.(callers := [Idle], holder := Free));
  }

  /** ShutdownNow, before the worker has taken the task. */
  lemma ShutdownNowBegun()
    ensures Reachable(Config(TERMINATED, Free, [WantLock], [Idle], Joining(true, 0), [0], 1, 0, 1, [], []))
  {
    OneTaskQueued();
    var s0 := Config(RUNNING, Free, [WantLock], [Idle], Ready, [0], 1, 0, 1, [], []);
    var s1 := s0.(ctl := Begin(true));
    To(s0, Control(true, 0), s1);
    var s2 := s1.(ctl := WriteState(true));
    To(s1, Control(true, 0), s2);
    var s3 := s2.(ctl := WantsLock(true), state := TERMINATED);
    To(s2, Control(true, 0), s3);
    var s4 := s3.(ctl := Broadcasting(true), holder := ByController);
    To(s3, Control(true, 0), s4);
    var s5 := s4.(ctl := Unlocking(true));
    assert WakeAll(s4.workers) == s4.workers;
    To(s4, Control(true, 0), s5);
    To(s5, Control(true, 0), s5.(ctl := Joining(true, 0), holder := Free));
  }

  lemma WorkerLeaves()
    ensures Reachable(Config(TERMINATED, Free, [Exited], [Idle], Joining(true, 0), [0], 1, 0, 1, [], []))
  {
    ShutdownNowBegun();
    var s0 := Config(TERMINATED, Free, [WantLock], [Idle], Joining(true, 0), [0], 1, 0, 1, [], []);
    var s1 := s0.(workers := [CheckOuter], holder := ByWorker(0));
    To(s0, Work(0, 0), s1);
    var s2 := s1.(workers := [Leaving]);
    To(s1, Work(0, 0), s2);
    To(s2, Work(0, 0), s2.(workers := [Exited], holder := Free));
  }

  /** Clear drops the task before the count is reset: with the mutex free, the count is 1 and the queue is
      empty. */
  lemma CountIsWrongDuringClear() returns (s: Config)
    ensures Reachable(s)
    ensures s.holder == Free && s.ctl == Clearing && s.discarded == [0] && s.queue == [] && s.count == 1
  {
    WorkerLeaves();
    var s0 := Config(TERMINATED, Free, [Exited], [Idle], Joining(true, 0), [0], 1, 0, 1, [], []);
    var s1 := s0.(ctl := Joining(true, 1));
    To(s0, Control(true, 0), s1);
    var s2 := s1.(ctl := Clearing);
    To(s1, Control(true, 0), s2);
    s := s2.(queue := [], discarded := [0]);
    To(s2, Control(true, 0), s);
  }
}
