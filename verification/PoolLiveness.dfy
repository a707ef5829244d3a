/** Shutdown of the worker pool finishes: after the broadcast some thread can always move, and the
    workers and the controller have only so many steps left. */
module PoolLiveness {
  import opened Pool
  import opened PoolInvariant

  // ---------------------------------------------------------------- all workers are started

  ghost predicate Started(s: Config) {
    if s.ctl.Spawning? then forall w: nat :: w < |s.workers| && w < s.ctl.next ==> s.workers[w] != NotStarted
    else forall w: nat :: w < |s.workers| ==> s.workers[w] != NotStarted
  }

  lemma StartedStep(s: Config, a: Action)
    requires ControlOk(s) && Started(s) && Enabled(s, a)
    ensures Started(Step(s, a))
  {
    match a
    case Work(w, pick) => StartedWork(s, w, pick);
    case SpuriousWake(w) =>
    case Call(c, isNull, wakes) => StartedCall(s, c, isNull, wakes);
    case Control(now, pick) => StartedControl(s, now, pick);
  }

  lemma StartedWork(s: Config, w: nat, pick: nat)
    requires Started(s) && WorkerEnabled(s, w, pick)
    ensures Started(WorkerStep(s, w, pick))
  {
    var t := WorkerStep(s, w, pick);
    assert t.ctl == s.ctl && t.workers == s.workers[w := t.workers[w]] && t.workers[w] != NotStarted;
  }

  lemma StartedCall(s: Config, c: nat, isNull: bool, wakes: set<nat>)
    requires Started(s) && CallerEnabled(s, c, wakes)
    ensures Started(CallerStep(s, c, isNull, wakes))
  {
  }

  lemma StartedControl(s: Config, now: bool, pick: nat)
    requires ControlOk(s) && Started(s) && ControlEnabled(s, pick)
    ensures Started(ControlStep(s, now, pick))
  {
  }

  lemma {:induction false} StartedRun(states: seq<Config>, actions: seq<Action>, k: nat)
    requires IsRun(states, actions) && k < |states|
    ensures Started(states[k])
  {
    if k > 0 {
      StartedRun(states, actions, k - 1);
      RunInv(states, actions, k - 1);
      assert Follows(states, actions, k - 1);
      StartedStep(states[k - 1], actions[k - 1]);
    }
  }

  // ---------------------------------------------------------------- the steps that are left

  /** How far a worker is from its exit, not counting the tasks it may still take. */
  function Rank(pc: WorkerPc): nat {
    match pc
    case Popped(_) => 8
    case Busy(_) => 7
    case WantRelock => 6
    case WantLock => 6
    case Woken => 6
    case Finishing => 5
    case CheckOuter => 5
    case CheckInner(_) => 4
    case TakeFront => 3
    case GotFront(_) => 2
    case CheckWait(_) => 2
    case Counted(_) => 1
    case Leaving => 1
    case _ => 0
  }

  function Ranks(workers: seq<WorkerPc>): nat {
    if |workers| == 0 then 0 else Rank(workers[0]) + Ranks(workers[1..])
  }

  lemma {:induction false} RanksUpdate(workers: seq<WorkerPc>, w: nat, pc: WorkerPc)
    requires w < |workers|
    ensures Ranks(workers[w := pc]) + Rank(workers[w]) == Ranks(workers) + Rank(pc)
  {
    if w == 0 {
      assert workers[w := pc][1..] == workers[1..];
    } else {
      assert workers[w := pc][1..] == workers[1..][w - 1 := pc];
      RanksUpdate(workers[1..], w - 1, pc);
    }
  }

  function ControlRank(s: Config): nat {
    match s.ctl
    case Unlocking(_) => |s.workers| + 4
    case Joining(_, next) => if next <= |s.workers| then |s.workers| - next + 3 else 0
    case Clearing => 2
    case FinalWrite => 1
    case Resetting => 1
    case _ => 0
  }

  /** A bound on the steps of workers and controller that are left after the broadcast. */
  function Left(s: Config): nat {
    10 * |s.queue| + Ranks(s.workers) + ControlRank(s)
  }

  lemma WorkDecreases(s: Config, w: nat, pick: nat)
    requires Inv(s) && Awakened(s.ctl) && WorkerEnabled(s, w, pick)
    ensures Left(WorkerStep(s, w, pick)) < Left(s)
  {
    var t := WorkerStep(s, w, pick);
    assert t.workers == s.workers[w := t.workers[w]];
    RanksUpdate(s.workers, w, t.workers[w]);
  }

  lemma ControlDecreases(s: Config, now: bool, pick: nat)
    requires Inv(s) && Awakened(s.ctl) && ControlEnabled(s, pick)
    ensures Left(ControlStep(s, now, pick)) < Left(s)
  {
  }

  lemma CallKeeps(s: Config, c: nat, isNull: bool, wakes: set<nat>)
    requires Inv(s) && Awakened(s.ctl) && CallerEnabled(s, c, wakes)
    ensures Left(CallerStep(s, c, isNull, wakes)) == Left(s)
  {
  }

  predicate OfPool(a: Action) {
    a.Work? || a.Control?
  }

  lemma StepLeft(s: Config, a: Action)
    requires Inv(s) && Awakened(s.ctl) && Enabled(s, a)
    ensures Awakened(Step(s, a).ctl)
    ensures if OfPool(a) then Left(Step(s, a)) < Left(s) else Left(Step(s, a)) == Left(s)
  {
    match a
    case Work(w, pick) => WorkDecreases(s, w, pick);
    case Control(now, pick) => ControlDecreases(s, now, pick);
    case Call(c, isNull, wakes) => CallKeeps(s, c, isNull, wakes);
    case SpuriousWake(w) =>
  }

  /** The steps of workers and controller between two states of a run. */
  function PoolSteps(actions: seq<Action>, j: nat, k: nat): nat
    requires j <= k <= |actions|
  {
    if j == k then 0 else PoolSteps(actions, j, k - 1) + (if OfPool(actions[k - 1]) then 1 else 0)
  }

  /** After the broadcast, the workers and the controller take at most so many steps, whatever the
      callers of Execute do and however the threads are scheduled. */
  lemma {:induction false} ShutdownStepsAreBounded(states: seq<Config>, actions: seq<Action>, j: nat, k: nat)
    requires IsRun(states, actions) && j <= k < |states| && Awakened(states[j].ctl)
    ensures Awakened(states[k].ctl)
    ensures PoolSteps(actions, j, k) + Left(states[k]) <= Left(states[j])
  {
    if j < k {
      ShutdownStepsAreBounded(states, actions, j, k - 1);
      RunInv(states, actions, k - 1);
      var s, a := states[k - 1], actions[k - 1];
      assert Follows(states, actions, k - 1);
      StepLeft(s, a);
    }
  }

  // ---------------------------------------------------------------- some thread can move

  /** A step of a worker or of the controller, or of a caller that holds the mutex. */
  predicate Useful(s: Config, a: Action) {
    OfPool(a) || (a.Call? && s.holder == ByCaller(a.c))
  }

  predicate OfHolder(a: Action, h: Holder) {
    match h
    case Free => false
    case ByWorker(w) => a.Work? && a.w == w
    case ByCaller(c) => a.Call? && a.c == c
    case ByController => a.Control?
  }

  lemma HolderMoves(s: Config) returns (a: Action)
    requires Inv(s) && s.holder != Free
    ensures Enabled(s, a) && Useful(s, a) && OfHolder(a, s.holder)
  {
    match s.holder
    case ByWorker(w) =>
      assert WorkerHolds(s.workers[w]) && WorkerSees(s.workers[w], s.state, s.queue);
      var pick: nat := 0;
      if s.workers[w].Counted? {
        pick :| pick < |s.queue| && s.queue[pick] == s.workers[w].t;
      }
      a := Work(w, pick);
    case ByCaller(c) =>
      assert CallerHolds(s.callers[c]);
      a := Call(c, false, {});
      if i: nat :| i < |s.workers| && s.workers[i] == Waiting {
        assert i in {i};
        a := Call(c, false, {i});
      }
    case ByController =>
      assert ControllerHolds(s.ctl);
      a := Control(false, 0);
  }

  lemma FreeMoves(s: Config) returns (a: Action)
    requires Inv(s) && Started(s) && s.holder == Free && Awakened(s.ctl) && !s.ctl.Done?
    ensures Enabled(s, a) && OfPool(a)
  {
    if w: nat :| w < |s.workers| && s.workers[w] != Exited {
      assert !WorkerHolds(s.workers[w]) && s.workers[w] != NotStarted && s.workers[w] != Waiting;
      a := Work(w, 0);
    } else {
      a := Control(false, 0);
    }
  }

  /** No deadlock in shutdown: until it is done, a worker or the controller can move, or the caller that
      holds the mutex can. */
  lemma ShutdownIsNeverStuck(states: seq<Config>, actions: seq<Action>, k: nat) returns (a: Action)
    requires IsRun(states, actions) && k < |states|
    requires Awakened(states[k].ctl) && !states[k].ctl.Done?
    ensures Enabled(states[k], a) && Useful(states[k], a)
  {
    StartedRun(states, actions, k);
    RunInv(states, actions, k);
    if states[k].holder == Free {
      a := FreeMoves(states[k]);
    } else {
      a := HolderMoves(states[k]);
    }
  }

  // ---------------------------------------------------------------- shutdown can always be finished

  /** The steps until the caller that holds the mutex lets go of it. */
  function CallerRank(s: Config): nat {
    match s.holder
    case ByCaller(c) => if c < |s.callers| && s.callers[c].CallerChecks? then 2 else 1
    case _ => 0
  }

  lemma UsefulDecreases(s: Config, a: Action)
    requires Inv(s) && Awakened(s.ctl) && Enabled(s, a) && Useful(s, a)
    ensures Left(Step(s, a)) < Left(s) || (Left(Step(s, a)) == Left(s) && CallerRank(Step(s, a)) < CallerRank(s))
  {
    StepLeft(s, a);
  }

  /** From every state of every run after the broadcast, the run can go on until the shutdown is done: no
      task and no schedule makes WaitExit wait forever for want of a step. */
  lemma {:induction false} ShutdownCanFinish(states: seq<Config>, actions: seq<Action>)
    returns (more: seq<Config>, steps: seq<Action>)
    requires IsRun(states, actions) && Awakened(states[|actions|].ctl)
    ensures IsRun(more, steps) && states <= more && more[|steps|].ctl.Done?
    decreases Left(states[|actions|]), CallerRank(states[|actions|])
  {
    var s := states[|actions|];
    more, steps := states, actions;
    if !s.ctl.Done? {
      var a := ShutdownIsNeverStuck(states, actions, |actions|);
      RunInv(states, actions, |actions|);
      UsefulDecreases(s, a);
      StepLeft(s, a);
      Extended(states, actions, a);
      more, steps := ShutdownCanFinish(states + [Step(s, a)], actions + [a]);
    }
  }
}
